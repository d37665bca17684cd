/** Where the arguments and results of the aggregation intrinsics lie among the flattened tensors: the
    specifications rebuilt from selection paths, and the outputs cut up by a running index. */
module TensorSelection {
  import opened Options
  import opened VariableNames

  // ---------------------------------------------------------------- selection

  ghost predicate Selectable(t: Type, path: seq<nat>)
    decreases |path|
  {
    path == [] || (t.Struct? && path[0] < |t.fields| && Selectable(t.fields[path[0]].value, path[1..]))
  }

  function TypeAt(t: Type, path: seq<nat>): Type
    requires Selectable(t, path)
    decreases |path|
  {
    if path == [] then t else TypeAt(t.fields[path[0]].value, path[1..])
  }

  /** The names of the fields that a path goes through. */
  function NamesAt(t: Type, path: seq<nat>): seq<string>
    requires Selectable(t, path)
    decreases |path|
  {
    if path == [] then []
    else [FieldName(t.fields[path[0]], path[0])] + NamesAt(t.fields[path[0]].value, path[1..])
  }

  /** How many leaves come before those of the selected part. */
  function Offset(t: Type, path: seq<nat>): nat
    requires Selectable(t, path)
    decreases |path|
  {
    if path == [] then 0
    else |FieldLeaves(t.fields[..path[0]])| + Offset(t.fields[path[0]].value, path[1..])
  }

  ghost predicate IsSliceAt(part: seq<Spec>, offset: nat, whole: seq<Spec>) {
    offset + |part| <= |whole| && whole[offset..offset + |part|] == part
  }

  lemma {:induction false} FieldIsSlice(fields: seq<Field>, k: nat, name: string)
    requires k < |fields|
    ensures IsSliceAt(Specs(fields[k].value, name + "/" + FieldName(fields[k], k)), |FieldLeaves(fields[..k])|,
                      FieldSpecs(fields, name))
    decreases |fields|
  {
    var n := |fields| - 1;
    FieldsFlattenedAlike(fields[..n], name);
    if k < n {
      assert fields[..n][..k] == fields[..k];
      FieldIsSlice(fields[..n], k, name);
    }
  }

  lemma SliceOfSlice(part: seq<Spec>, i: nat, middle: seq<Spec>, j: nat, whole: seq<Spec>)
    requires IsSliceAt(part, i, middle) && IsSliceAt(middle, j, whole)
    ensures IsSliceAt(part, j + i, whole)
  {
    var cut := whole[j + i..j + i + |part|];
    forall k | 0 <= k < |part| ensures cut[k] == part[k] {
      assert middle[i..i + |part|][k] == middle[i + k] && whole[j..j + |middle|][i + k] == whole[j + i + k];
    }
  }

  /** The specifications of a selected part are a contiguous part of those of the whole. */
  lemma {:induction false} SelectionIsSlice(t: Type, path: seq<nat>, name: string)
    requires Selectable(t, path)
    ensures IsSliceAt(Specs(TypeAt(t, path), name + Slashed(NamesAt(t, path))), Offset(t, path), Specs(t, name))
    decreases |path|
  {
    if path == [] {
      assert name + "" == name;
    } else {
      var k, c := path[0], FieldName(t.fields[path[0]], path[0]);
      var inner := t.fields[k].value;
      SelectionIsSlice(inner, path[1..], name + "/" + c);
      SlashedUnder(name, c, NamesAt(inner, path[1..]));
      FieldIsSlice(t.fields, k, name);
      SliceOfSlice(Specs(TypeAt(inner, path[1..]), name + "/" + c + Slashed(NamesAt(inner, path[1..]))),
                   Offset(inner, path[1..]), Specs(inner, name + "/" + c),
                   |FieldLeaves(t.fields[..k])|, Specs(t, name));
    }
  }

  // ---------------------------------------------------------------- names rebuilt from a path

  function JoinedWithSlash(parts: seq<string>): string {
    if parts == [] then "" else if |parts| == 1 then parts[0] else parts[0] + "/" + JoinedWithSlash(parts[1..])
  }

  function Numerals(path: seq<nat>): (r: seq<string>)
    ensures |r| == |path| && AllSlashFree(r)
  {
    seq(|path|, i requires 0 <= i < |path| => Digits(path[i]))
  }

  function RebuiltPrefix(name: string, path: seq<nat>): string { name + "/" + JoinedWithSlash(Numerals(path)) }

  lemma {:induction false} JoinedIsSlashed(parts: seq<string>)
    requires parts != []
    ensures "/" + JoinedWithSlash(parts) == Slashed(parts)
  {
    if |parts| == 1 {
      assert parts[1..] == [] && "/" + parts[0] + "" == "/" + parts[0];
    } else {
      JoinedIsSlashed(parts[1..]);
      assert "/" + (parts[0] + "/" + JoinedWithSlash(parts[1..])) ==
             "/" + parts[0] + ("/" + JoinedWithSlash(parts[1..]));
    }
  }

  lemma PrefixDecides(t: Type, p: string, q: string)
    ensures Specs(t, p) == Specs(t, q) <==> Leaves(t) == [] || p == q
  {
    FlattenedAlike(t, p);
    FlattenedAlike(t, q);
    if Leaves(t) != [] && Specs(t, p) == Specs(t, q) {
      var s := Slashed(Leaves(t)[0].path);
      assert p + s == q + s;
      assert p == (p + s)[..|p + s| - |s|] && q == (q + s)[..|q + s| - |s|];
    }
  }

  /** The rebuilt specifications are those of the selected tensors exactly when the path has at least one index
      below the argument and every field on it goes by its index, or when there is no tensor at all. */
  lemma RebuiltExactly(t: Type, path: seq<nat>, name: string)
    requires Selectable(t, path) && AllSlashFree(NamesAt(t, path))
    ensures IsSliceAt(Specs(TypeAt(t, path), RebuiltPrefix(name, path)), Offset(t, path), Specs(t, name))
       <==> Leaves(TypeAt(t, path)) == [] || (path != [] && NamesAt(t, path) == Numerals(path))
  {
    var given, rebuilt := name + Slashed(NamesAt(t, path)), RebuiltPrefix(name, path);
    var sub := TypeAt(t, path);
    SelectionIsSlice(t, path, name);
    FlattenedAlike(sub, given);
    FlattenedAlike(sub, rebuilt);
    PrefixDecides(sub, given, rebuilt);
    PrefixesAgree(t, path, name);
  }

  lemma PrefixesAgree(t: Type, path: seq<nat>, name: string)
    requires Selectable(t, path) && AllSlashFree(NamesAt(t, path))
    ensures name + Slashed(NamesAt(t, path)) == RebuiltPrefix(name, path)
       <==> path != [] && NamesAt(t, path) == Numerals(path)
  {
    var names, numerals := NamesAt(t, path), Numerals(path);
    if path == [] {
      assert |name + Slashed(names)| < |RebuiltPrefix(name, path)|;
    } else {
      JoinedIsSlashed(numerals);
      assert RebuiltPrefix(name, path) == name + ("/" + JoinedWithSlash(numerals));
      assert Slashed(names) == (name + Slashed(names))[|name|..];
      assert Slashed(numerals) == (name + Slashed(numerals))[|name|..];
      if Slashed(names) == Slashed(numerals) { SlashedInjective(names, numerals); }
    }
  }

  ghost predicate UnnamedOnPath(t: Type, path: seq<nat>)
    requires Selectable(t, path)
    decreases |path|
  {
    path == [] || (!Named(t.fields[path[0]]) && UnnamedOnPath(t.fields[path[0]].value, path[1..]))
  }

  /** Unnamed fields, as in the source's own structures, go by their index. */
  lemma {:induction false} UnnamedGoByIndex(t: Type, path: seq<nat>)
    requires Selectable(t, path) && UnnamedOnPath(t, path)
    ensures NamesAt(t, path) == Numerals(path)
    decreases |path|
  {
    if path != [] {
      UnnamedGoByIndex(t.fields[path[0]].value, path[1..]);
      assert Numerals(path) == [Digits(path[0])] + Numerals(path[1..]);
    }
  }

  // ---------------------------------------------------------------- arguments of an intrinsic

  /** A building block: some value, or one field of another block's structure. */
  datatype Block = Value(signature: Type) | Selection(source: Block, index: nat)

  function Root(b: Block): Type {
    match b
    case Value(signature) => signature
    case Selection(source, _) => Root(source)
  }

  /** The selected indices, outermost structure first. */
  function PathOf(b: Block): seq<nat> {
    match b
    case Value(_) => []
    case Selection(source, index) => PathOf(source) + [index]
  }

  /** The type of a block, from the type of the block it selects from. */
  function TypeOf(b: Block): (t: Option<Type>) {
    match b
    case Value(signature) => Some(signature)
    case Selection(source, index) =>
      var t := TypeOf(source);
      if t.Some? && t.value.Struct? && index < |t.value.fields| then Some(t.value.fields[index].value) else None
  }

  lemma {:induction false} SelectFurther(t: Type, path: seq<nat>, index: nat)
    requires Selectable(t, path) && TypeAt(t, path).Struct? && index < |TypeAt(t, path).fields|
    ensures Selectable(t, path + [index])
    ensures TypeAt(t, path + [index]) == TypeAt(t, path).fields[index].value
    decreases |path|
  {
    if path == [] {
      assert ([] + [index])[1..] == [];
    } else {
      assert (path + [index])[1..] == path[1..] + [index];
      SelectFurther(t.fields[path[0]].value, path[1..], index);
    }
  }

  /** The type of a block is what its path leads to. */
  lemma {:induction false} TypeFollowsPath(b: Block)
    requires TypeOf(b).Some?
    ensures Selectable(Root(b), PathOf(b)) && TypeOf(b) == Some(TypeAt(Root(b), PathOf(b)))
  {
    if b.Selection? {
      TypeFollowsPath(b.source);
      SelectFurther(Root(b.source), PathOf(b.source), b.index);
    }
  }

  function Reversed(s: seq<nat>): (r: seq<nat>)
    ensures |r| == |s| && forall i | 0 <= i < |s| :: r[i] == s[|s| - 1 - i]
  {
    seq(|s|, i requires 0 <= i < |s| => s[|s| - 1 - i])
  }

  method GetSelectionPath(b: Block) returns (path: seq<nat>)
    ensures path == PathOf(b)
  {
    path := [];
    var selection := b;
    while selection.Selection?
      invariant PathOf(b) == PathOf(selection) + Reversed(path)
      decreases selection
    {
      assert Reversed(path + [selection.index]) == [selection.index] + Reversed(path);
      path := path + [selection.index];
      selection := selection.source;
    }
    path := Reversed(path);
  }

  datatype Arguments = TypeError | ValueError | Arguments(specs: seq<Spec>)

  function SpecsOfSelection(b: Block, names: map<nat, string>): Arguments
    requires TypeOf(b).Some?
  {
    if b.Value? then TypeError
    else if PathOf(b)[0] !in names then ValueError
    else Arguments(Specs(TypeOf(b).value, RebuiltPrefix(names[PathOf(b)[0]], PathOf(b)[1..])))
  }

  /** The specifications of all the selections, or the first error. */
  function SpecsOfAll(values: seq<Block>, names: map<nat, string>): Arguments
    requires forall b | b in values :: TypeOf(b).Some?
  {
    if values == [] then Arguments([])
    else
      var before := SpecsOfAll(values[..|values| - 1], names);
      if !before.Arguments? then before
      else
        var last := SpecsOfSelection(values[|values| - 1], names);
        if last.Arguments? then Arguments(before.specs + last.specs) else last
  }

  lemma {:induction false} FirstErrorStands(values: seq<Block>, names: map<nat, string>, i: nat)
    requires i <= |values| && forall b | b in values :: TypeOf(b).Some?
    requires !SpecsOfAll(values[..i], names).Arguments?
    ensures SpecsOfAll(values, names) == SpecsOfAll(values[..i], names)
    decreases |values|
  {
    if i == |values| {
      assert values[..i] == values;
    } else {
      assert values[..|values| - 1][..i] == values[..i];
      FirstErrorStands(values[..|values| - 1], names, i);
    }
  }

  /** A value that is not a selection, or selects from an unknown argument. */
  predicate Faulty(b: Block, names: map<nat, string>) { b.Value? || PathOf(b)[0] !in names }

  lemma SelectionExactly(b: Block, names: map<nat, string>)
    requires TypeOf(b).Some?
    ensures SpecsOfSelection(b, names).Arguments? <==> !Faulty(b, names)
    ensures Faulty(b, names) ==> SpecsOfSelection(b, names) == if b.Value? then TypeError else ValueError
  {
  }

  /** Without a fault the arguments are found. */
  lemma {:induction false} NoFaultNoError(values: seq<Block>, names: map<nat, string>)
    requires forall b | b in values :: TypeOf(b).Some?
    requires forall i | 0 <= i < |values| :: !Faulty(values[i], names)
    ensures SpecsOfAll(values, names).Arguments?
  {
    if values != [] {
      NoFaultNoError(values[..|values| - 1], names);
      SelectionExactly(values[|values| - 1], names);
    }
  }

  /** With one the first fault decides the error. */
  lemma FirstFaultDecides(values: seq<Block>, names: map<nat, string>, i: nat)
    requires forall b | b in values :: TypeOf(b).Some?
    requires i < |values| && Faulty(values[i], names) && forall j | 0 <= j < i :: !Faulty(values[j], names)
    ensures SpecsOfAll(values, names) == if values[i].Value? then TypeError else ValueError
  {
    NoFaultNoError(values[..i], names);
    SelectionExactly(values[i], names);
    assert values[..i + 1][..i] == values[..i] && values[..i + 1][i] == values[i];
    FirstErrorStands(values, names, i + 1);
  }

  /** How many specifications the values before `i` have. */
  function SpecsBefore(values: seq<Block>, i: nat): nat
    requires i <= |values| && forall b | b in values :: TypeOf(b).Some?
  {
    if i == 0 then 0 else SpecsBefore(values, i - 1) + |Leaves(TypeOf(values[i - 1]).value)|
  }

  lemma {:induction false} SpecsBeforePrefix(values: seq<Block>, i: nat)
    requires i < |values| && forall b | b in values :: TypeOf(b).Some?
    ensures SpecsBefore(values[..|values| - 1], i) == SpecsBefore(values, i)
  {
    if i > 0 { SpecsBeforePrefix(values, i - 1); }
  }

  ghost predicate StandsAt(values: seq<Block>, names: map<nat, string>, i: nat, all: seq<Spec>)
    requires i < |values| && forall b | b in values :: TypeOf(b).Some?
  {
    var b := values[i];
    && !Faulty(b, names)
    && IsSliceAt(Specs(TypeOf(b).value, RebuiltPrefix(names[PathOf(b)[0]], PathOf(b)[1..])),
                 SpecsBefore(values, i), all)
  }

  lemma {:induction false} ArgumentsAddUp(values: seq<Block>, names: map<nat, string>)
    requires forall b | b in values :: TypeOf(b).Some?
    requires SpecsOfAll(values, names).Arguments?
    ensures |SpecsOfAll(values, names).specs| == SpecsBefore(values, |values|)
    ensures values != [] ==> StandsAt(values, names, |values| - 1, SpecsOfAll(values, names).specs)
  {
    if values != [] {
      var n := |values| - 1;
      var last := values[n];
      ArgumentsAddUp(values[..n], names);
      SelectionExactly(last, names);
      FlattenedAlike(TypeOf(last).value, RebuiltPrefix(names[PathOf(last)[0]], PathOf(last)[1..]));
      SpecsBeforePrefix(values, n);
      assert SpecsBefore(values, |values|) == SpecsBefore(values, n) + |Leaves(TypeOf(last).value)|;
    }
  }

  /** Each selection's specifications stand where those of the selections before it end. */
  lemma {:induction false} ArgumentsInOrder(values: seq<Block>, names: map<nat, string>, i: nat)
    requires forall b | b in values :: TypeOf(b).Some?
    requires i < |values| && SpecsOfAll(values, names).Arguments?
    ensures StandsAt(values, names, i, SpecsOfAll(values, names).specs)
    decreases |values|
  {
    ArgumentsAddUp(values, names);
    if i < |values| - 1 {
      ArgumentsInOrder(values[..|values| - 1], names, i);
      SpecsBeforePrefix(values, i);
    }
  }

  /** One argument of an intrinsic, given as the selections it consists of. */
  method GetInputTensorSpecs(values: seq<Block>, names: map<nat, string>) returns (r: Arguments)
    requires forall b | b in values :: TypeOf(b).Some?
    ensures r == SpecsOfAll(values, names)
  {
    var specs := [];
    for i := 0 to |values|
      invariant SpecsOfAll(values[..i], names) == Arguments(specs)
    {
      assert values[..i + 1][..i] == values[..i];
      var b := values[i];
      if b.Value? {
        FirstErrorStands(values, names, i + 1);
        return TypeError;
      }
      var path := GetSelectionPath(b);
      if path[0] !in names {
        FirstErrorStands(values, names, i + 1);
        return ValueError;
      }
      specs := specs + Specs(TypeOf(b).value, RebuiltPrefix(names[path[0]], path[1..]));
    }
    assert values[..|values|] == values;
    r := Arguments(specs);
  }

  /** A selection below an argument, through unnamed fields of it, yields the specifications under
      which those tensors were stored: a contiguous part of the specifications of the whole argument. */
  lemma SelectionFindsItsTensors(b: Block, names: map<nat, string>)
    requires TypeOf(b).Some? && Root(b).Struct? && |PathOf(b)| >= 2 && PathOf(b)[0] in names
    requires Selectable(Root(b), PathOf(b))
    requires UnnamedOnPath(Root(b).fields[PathOf(b)[0]].value, PathOf(b)[1..])
    ensures var arg, rest := PathOf(b)[0], PathOf(b)[1..];
            var found := SpecsOfSelection(b, names);
            found.Arguments? &&
            IsSliceAt(found.specs, Offset(Root(b).fields[arg].value, rest),
                      Specs(Root(b).fields[arg].value, names[arg]))
  {
    var arg, rest := PathOf(b)[0], PathOf(b)[1..];
    var t := Root(b).fields[arg].value;
    TypeFollowsPath(b);
    UnnamedGoByIndex(t, rest);
    RebuiltExactly(t, rest, names[arg]);
  }

  // ---------------------------------------------------------------- results of the intrinsics

  /** How many leaves a structure has; anything that is not a structure counts as one. */
  function Count(t: Type): nat
    decreases t, 1
  {
    match t
    case Struct(fields) => CountFields(fields)
    case Tensor(_) => 1
    case Federated(_) => 1
  }

  function CountFields(fields: seq<Field>): nat
    decreases fields, 0
  {
    if fields == [] then 0
    else
      var n := |fields| - 1;
      assert (fields decreases to fields[n]);
      CountFields(fields[..n]) + Count(fields[n].value)
  }

  function CountAll(members: seq<Type>): nat {
    if members == [] then 0 else CountAll(members[..|members| - 1]) + Count(members[|members| - 1])
  }

  /** A slice whose bounds may lie beyond the end. */
  function Clipped(s: seq<Spec>, from: nat, end: nat): (r: seq<Spec>)
    requires from <= end
    ensures |r| == if from >= |s| then 0 else if end >= |s| then |s| - from else end - from
    ensures forall i | 0 <= i < |r| :: r[i] == s[from + i]
  {
    if from >= |s| then [] else if end >= |s| then s[from..] else s[from..end]
  }

  lemma {:induction false} CountAllGrows(members: seq<Type>, i: nat)
    requires i < |members|
    ensures CountAll(members[..i + 1]) == CountAll(members[..i]) + Count(members[i])
  {
    assert members[..i + 1][..i] == members[..i];
  }

  /** Local `i` owns this part of the flattened results. */
  function GroupAt(flat: seq<Spec>, members: seq<Type>, i: nat): seq<Spec>
    requires i < |members|
  {
    var from := CountAll(members[..i]);
    Clipped(flat, from, from + Count(members[i]))
  }

  predicate Missing(flat: seq<Spec>, members: seq<Type>, i: nat)
    requires i < |members|
  {
    !members[i].Struct? && CountAll(members[..i]) >= |flat|
  }

  /** The running index; None stands for an index beyond the list. */
  method GroupOutputs(flat: seq<Spec>, members: seq<Type>) returns (r: Option<seq<seq<Spec>>>)
    ensures r.None? <==> exists i: nat | i < |members| :: Missing(flat, members, i)
    ensures r.Some? ==> |r.value| == |members|
    ensures r.Some? ==> forall i: nat | i < |members| :: r.value[i] == GroupAt(flat, members, i)
  {
    var index, groups := 0, [];
    for i := 0 to |members|
      invariant index == CountAll(members[..i]) && |groups| == i
      invariant forall j: nat | j < i :: !Missing(flat, members, j) && groups[j] == GroupAt(flat, members, j)
    {
      CountAllGrows(members, i);
      if members[i].Struct? {
        var size := Count(members[i]);
        groups := groups + [Clipped(flat, index, index + size)];
        index := index + size;
      } else {
        if index >= |flat| {
          assert Missing(flat, members, i);
          return None;
        }
        groups := groups + [[flat[index]]];
        index := index + 1;
      }
    }
    r := Some(groups);
  }

  // ---------------------------------------------------------------- the groups partition the results

  ghost predicate Plain(t: Type)
    decreases t, 1
  {
    match t
    case Tensor(_) => true
    case Federated(_) => false
    case Struct(fields) => PlainFields(fields)
  }

  ghost predicate PlainFields(fields: seq<Field>)
    decreases fields, 0
  {
    forall i | 0 <= i < |fields| :: assert (fields decreases to fields[i]); Plain(fields[i].value)
  }

  lemma {:induction false} CountsLeaves(t: Type)
    requires Plain(t)
    ensures Count(t) == |Leaves(t)|
    decreases t, 1
  {
    if t.Struct? { CountsFieldLeaves(t.fields); }
  }

  lemma {:induction false} CountsFieldLeaves(fields: seq<Field>)
    requires PlainFields(fields)
    ensures CountFields(fields) == |FieldLeaves(fields)|
    decreases fields, 0
  {
    if fields != [] {
      var n := |fields| - 1;
      assert (fields decreases to fields[n]);
      CountsFieldLeaves(fields[..n]);
      CountsLeaves(fields[n].value);
    }
  }

  /** The intrinsics' results: a structure with one federated value for each local. */
  ghost predicate LocalsOf(locals: seq<Field>, members: seq<Type>) {
    |locals| == |members| &&
    forall i | 0 <= i < |locals| :: locals[i].value == Federated(members[i]) && Plain(members[i])
  }

  function OutputSpecs(locals: seq<Field>): seq<Spec> {
    Specs(Struct([Field(None, Struct(locals))]), "intermediate_update")
  }

  lemma OnlyField(f: Field, name: string)
    ensures Specs(Struct([f]), name) == Specs(f.value, name + "/" + FieldName(f, 0))
  {
    assert FieldSpecs([f][..0], name) == [];
  }

  lemma OutputSpecsUnfold(locals: seq<Field>)
    ensures OutputSpecs(locals) == FieldSpecs(locals, "intermediate_update/0")
  {
    OnlyField(Field(None, Struct(locals)), "intermediate_update");
    assert "intermediate_update" + "/" + Digits(0) == "intermediate_update/0";
  }

  lemma {:induction false} CountsLocals(locals: seq<Field>, members: seq<Type>, i: nat)
    requires LocalsOf(locals, members) && i <= |locals|
    ensures CountAll(members[..i]) == |FieldLeaves(locals[..i])|
  {
    if i > 0 {
      CountsLocals(locals, members, i - 1);
      CountAllGrows(members, i - 1);
      assert locals[..i][..i - 1] == locals[..i - 1];
      CountsLeaves(members[i - 1]);
    }
  }

  /** Each group holds exactly the specifications of its own local, under that local's name; nothing is missing. */
  lemma GroupIsItsLocal(locals: seq<Field>, members: seq<Type>, i: nat)
    requires LocalsOf(locals, members) && i < |locals|
    ensures GroupAt(OutputSpecs(locals), members, i) ==
            Specs(members[i], "intermediate_update/0" + "/" + FieldName(locals[i], i))
    ensures !Missing(OutputSpecs(locals), members, i)
  {
    var name := "intermediate_update/0";
    var own := Specs(members[i], name + "/" + FieldName(locals[i], i));
    OutputSpecsUnfold(locals);
    FieldIsSlice(locals, i, name);
    CountsLocals(locals, members, i);
    CountsLeaves(members[i]);
    FlattenedAlike(members[i], name + "/" + FieldName(locals[i], i));
    assert IsSliceAt(own, CountAll(members[..i]), OutputSpecs(locals)) && |own| == Count(members[i]);
  }

  function Groups(flat: seq<Spec>, members: seq<Type>, n: nat): seq<Spec>
    requires n <= |members|
  {
    if n == 0 then [] else Groups(flat, members, n - 1) + GroupAt(flat, members, n - 1)
  }

  lemma {:induction false} GroupsAreAPrefix(flat: seq<Spec>, members: seq<Type>, n: nat)
    requires n <= |members| && CountAll(members[..n]) <= |flat|
    ensures Groups(flat, members, n) == flat[..CountAll(members[..n])]
  {
    if n > 0 {
      CountAllGrows(members, n - 1);
      GroupsAreAPrefix(flat, members, n - 1);
    }
  }

  /** Put together in order, the groups are the whole list. */
  lemma GroupsPartition(locals: seq<Field>, members: seq<Type>)
    requires LocalsOf(locals, members)
    ensures Groups(OutputSpecs(locals), members, |members|) == OutputSpecs(locals)
  {
    var flat := OutputSpecs(locals);
    OutputSpecsUnfold(locals);
    FieldsFlattenedAlike(locals, "intermediate_update/0");
    CountsLocals(locals, members, |locals|);
    assert locals[..|locals|] == locals && members[..|members|] == members;
    GroupsAreAPrefix(flat, members, |members|);
    assert flat[..|flat|] == flat;
  }
}
