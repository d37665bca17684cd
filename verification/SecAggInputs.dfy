/** From the plan's output tensors to the vectors handed to the SecAgg client: the conversion of the tensors to
    unsigned integers, the choice of each vector's modulus, and the validation before SecAgg starts. */
module SecAggInputs {
  import opened Options

  const TWO31 := 0x8000_0000
  const TWO32 := 0x1_0000_0000
  const TWO63 := 0x8000_0000_0000_0000
  const TWO64 := 0x1_0000_0000_0000_0000
  const MAX_MODULUS := 0x4000_0000_0000_0000
  const TENSORFLOW_CHECKPOINT := "tensorflow_checkpoint"

  // ---------------------------------------------------------------- machine integers

  function ToUint64(x: int): int { x % TWO64 }

  function ToInt64(x: int): int { if x % TWO64 < TWO63 then x % TWO64 else x % TWO64 - TWO64 }

  function ToInt32(x: int): int { if x % TWO32 < TWO31 then x % TWO32 else x % TWO32 - TWO32 }

  /** Each conversion gives a number of its type, and changes the value by a multiple of the type's size. */
  lemma Uint64Wraps(x: int) returns (k: int)
    ensures 0 <= ToUint64(x) < TWO64 && x == ToUint64(x) + k * TWO64
  {
    k := x / TWO64;
  }

  lemma Int64Wraps(x: int) returns (k: int)
    ensures -TWO63 <= ToInt64(x) < TWO63 && x == ToInt64(x) + k * TWO64
  {
    k := if x % TWO64 < TWO63 then x / TWO64 else x / TWO64 + 1;
  }

  lemma Int32Wraps(x: int) returns (k: int)
    ensures -TWO31 <= ToInt32(x) < TWO31 && x == ToInt32(x) + k * TWO32
  {
    k := if x % TWO32 < TWO31 then x / TWO32 else x / TWO32 + 1;
  }

  function Product(dimensions: seq<int>): int {
    if dimensions == [] then 1
    else Product(dimensions[..|dimensions| - 1]) * dimensions[|dimensions| - 1]
  }

  /** The product of dimensions is that of all of them. */
  lemma {:induction false} ProductOfConcat(a: seq<int>, b: seq<int>)
    ensures Product(a + b) == Product(a) * Product(b)
  {
    if b == [] {
      assert a + b == a;
    } else {
      assert (a + b)[..|a + b| - 1] == a + b[..|b| - 1];
      ProductOfConcat(a, b[..|b| - 1]);
      MulAssociates(Product(a), Product(b[..|b| - 1]), b[|b| - 1]);
    }
  }

  lemma MulAssociates(x: int, y: int, z: int)
    ensures x * y * z == x * (y * z)
  {
  }

  lemma ProductOfOne(d: int)
    ensures Product([]) == 1 && Product([d]) == d
  {
    assert [d][..0] == [];
  }

  lemma CongruentShift(x: int, k: int)
    ensures ToUint64(x + k * TWO64) == ToUint64(x)
  {}

  /** Wrapping a factor does not change the wrapped product. */
  lemma WrappedProduct(x: int, y: int)
    ensures ToUint64(ToInt64(x) * y) == ToUint64(x * y)
  {
    var k := Int64Wraps(x);
    assert ToInt64(x) * y == x * y + (-k * y) * TWO64;
    CongruentShift(x * y, -k * y);
  }

  /** The flattened length is the product of the dimensions, in 64-bit arithmetic. */
  method FlattenedLength(dimensions: seq<int>) returns (length: int)
    ensures length == ToInt64(Product(dimensions))
  {
    length := 1;
    for i := 0 to |dimensions|
      invariant length == ToInt64(Product(dimensions[..i]))
    {
      assert dimensions[..i + 1][..i] == dimensions[..i];
      WrappedProduct(Product(dimensions[..i]), dimensions[i]);
      length := ToInt64(length * dimensions[i]);
    }
    assert dimensions[..|dimensions|] == dimensions;
  }

  // ---------------------------------------------------------------- from tensors to quantized values

  datatype DType = Int8 | Uint8 | Int16 | Uint16 | Int32 | Int64 | OtherType

  predicate Fits(d: DType, x: int) {
    match d
    case Int8 => -0x80 <= x < 0x80
    case Uint8 => 0 <= x < 0x100
    case Int16 => -0x8000 <= x < 0x8000
    case Uint16 => 0 <= x < 0x1_0000
    case Int32 => -TWO31 <= x < TWO31
    case Int64 => -TWO63 <= x < TWO63
    case OtherType => true
  }

  function BitwidthOf(d: DType): Option<nat> {
    match d
    case Int8 => Some(7)
    case Uint8 => Some(8)
    case Int16 => Some(15)
    case Uint16 => Some(16)
    case Int32 => Some(31)
    case Int64 => Some(62)
    case OtherType => None
  }

  datatype Tensor = Tensor(dtype: DType, entries: seq<int>)

  ghost predicate TensorValid(t: Tensor) {
    |t.entries| < TWO63 && forall i | 0 <= i < |t.entries| :: Fits(t.dtype, t.entries[i])
  }

  datatype Quantized = Quantized(values: seq<int>, bitwidth: nat, dimensions: seq<int>)

  datatype Computed = Checkpoint(contents: string) | Quantity(tensor: Quantized)

  datatype Spec = Spec(name: string, dimensions: seq<int>)

  datatype CheckpointFile = NoFile | Unreadable | Readable(contents: string)

  datatype Computation = InvalidArgument | ReadFailed | Results(results: map<string, Computed>)

  function AsUnsigned(entries: seq<int>): (values: seq<int>)
    ensures |values| == |entries|
  {
    seq(|entries|, i requires 0 <= i < |entries| => ToUint64(entries[i]))
  }

  /** Where a name occurs last: a later output replaces an earlier one of the same name. */
  function LastOf(names: seq<string>, name: string): (i: nat)
    requires name in names
    ensures i < |names| && names[i] == name && name !in names[i + 1..]
  {
    if names[|names| - 1] == name then |names| - 1 else LastOf(names[..|names| - 1], name)
  }

  /** The dimensions of every specification with this name, one after the other. */
  function DimensionsOf(specs: seq<Spec>, name: string): seq<int> {
    if specs == [] then []
    else DimensionsOf(specs[..|specs| - 1], name) +
         (if specs[|specs| - 1].name == name then specs[|specs| - 1].dimensions else [])
  }

  /** The dimensions of a name are those of its specification, and of several one after the other. */
  lemma {:induction false} DimensionsOfConcat(a: seq<Spec>, b: seq<Spec>, name: string)
    ensures DimensionsOf(a + b, name) == DimensionsOf(a, name) + DimensionsOf(b, name)
  {
    if b == [] {
      assert a + b == a;
    } else {
      assert (a + b)[..|a + b| - 1] == a + b[..|b| - 1];
      DimensionsOfConcat(a, b[..|b| - 1], name);
    }
  }

  lemma {:induction false} DimensionsOfOthers(specs: seq<Spec>, name: string)
    requires forall i | 0 <= i < |specs| :: specs[i].name != name
    ensures DimensionsOf(specs, name) == []
  {
    if specs != [] { DimensionsOfOthers(specs[..|specs| - 1], name); }
  }

  lemma {:induction false} OnlySpecDecides(specs: seq<Spec>, i: nat)
    requires i < |specs| && forall j | 0 <= j < |specs| && j != i :: specs[j].name != specs[i].name
    ensures DimensionsOf(specs, specs[i].name) == specs[i].dimensions
    decreases |specs|
  {
    var p := specs[..|specs| - 1];
    if i < |p| {
      OnlySpecDecides(p, i);
      assert p[i] == specs[i];
    } else {
      DimensionsOfOthers(p, specs[i].name);
    }
  }

  predicate Convertible(tensors: seq<Tensor>) { forall i | 0 <= i < |tensors| :: tensors[i].dtype != OtherType }

  ghost predicate Describes(q: Quantized, t: Tensor, dimensions: seq<int>) {
    BitwidthOf(t.dtype) == Some(q.bitwidth) && q.values == AsUnsigned(t.entries) && q.dimensions == dimensions
  }

  /** The map holds, for each output name, the last output of that name. */
  ghost predicate Collected(m: map<string, Computed>, names: seq<string>, tensors: seq<Tensor>, specs: seq<Spec>)
    requires |names| == |tensors|
  {
    (forall k :: k in m <==> k in names) &&
    forall k | k in m :: m[k].Quantity? && Describes(m[k].tensor, tensors[LastOf(names, k)], DimensionsOf(specs, k))
  }

  method AddValuesToQuantized(t: Tensor) returns (values: seq<int>)
    ensures values == AsUnsigned(t.entries)
  {
    values := [];
    for i := 0 to |t.entries|
      invariant values == AsUnsigned(t.entries)[..i]
    {
      values := values + [ToUint64(t.entries[i])];
    }
  }

  method QuantizeOutputs(names: seq<string>, tensors: seq<Tensor>) returns (ok: bool, m: map<string, Computed>)
    requires |names| == |tensors|
    ensures ok <==> Convertible(tensors)
    ensures ok ==> Collected(m, names, tensors, [])
  {
    m := map[];
    for i := 0 to |names|
      invariant Convertible(tensors[..i]) && Collected(m, names[..i], tensors[..i], [])
    {
      if tensors[i].dtype == OtherType { return false, m; }
      var values := AddValuesToQuantized(tensors[i]);
      var q := Quantized(values, BitwidthOf(tensors[i].dtype).value, []);
      CollectOne(m, names, tensors, i, q);
      m := m[names[i] := Quantity(q)];
    }
    assert names[..|names|] == names && tensors[..|names|] == tensors;
    ok := true;
  }

  lemma CollectOne(m: map<string, Computed>, names: seq<string>, tensors: seq<Tensor>, i: nat, q: Quantized)
    requires i < |names| == |tensors| && Collected(m, names[..i], tensors[..i], []) && Describes(q, tensors[i], [])
    ensures Collected(m[names[i] := Quantity(q)], names[..i + 1], tensors[..i + 1], [])
  {
    assert names[..i + 1][..i] == names[..i] && names[..i + 1] == names[..i] + [names[i]];
  }

  function Extended(m: map<string, Computed>, s: Spec): map<string, Computed> {
    if s.name in m && m[s.name].Quantity? then
      var q := m[s.name].tensor;
      m[s.name := Quantity(q.(dimensions := q.dimensions + s.dimensions))]
    else m
  }

  lemma ExtendAt(m: map<string, Computed>, k: string, t: Tensor, specs: seq<Spec>)
    requires specs != [] && k in m && m[k].Quantity?
    requires Describes(m[k].tensor, t, DimensionsOf(specs[..|specs| - 1], k))
    requires specs[|specs| - 1].name in m ==> m[specs[|specs| - 1].name].Quantity?
    ensures var after := Extended(m, specs[|specs| - 1]);
            k in after && after[k].Quantity? && Describes(after[k].tensor, t, DimensionsOf(specs, k))
  {}

  lemma ExtendOne(m: map<string, Computed>, names: seq<string>, tensors: seq<Tensor>, specs: seq<Spec>, i: nat)
    requires |names| == |tensors| && i < |specs| && Collected(m, names, tensors, specs[..i])
    ensures Collected(Extended(m, specs[i]), names, tensors, specs[..i + 1])
  {
    assert specs[..i + 1][..i] == specs[..i];
    forall k | k in m
      ensures Extended(m, specs[i])[k].Quantity?
      ensures Describes(Extended(m, specs[i])[k].tensor, tensors[LastOf(names, k)], DimensionsOf(specs[..i + 1], k))
    {
      ExtendAt(m, k, tensors[LastOf(names, k)], specs[..i + 1]);
    }
  }

  method AddDimensions(before: map<string, Computed>, specs: seq<Spec>, ghost names: seq<string>,
                       ghost tensors: seq<Tensor>)
    returns (m: map<string, Computed>)
    requires |names| == |tensors| && Collected(before, names, tensors, [])
    ensures Collected(m, names, tensors, specs)
  {
    m := before;
    for i := 0 to |specs|
      invariant Collected(m, names, tensors, specs[..i])
    {
      ExtendOne(m, names, tensors, specs, i);
      m := Extended(m, specs[i]);
    }
    assert specs[..|specs|] == specs;
  }

  /** Exactly the outputs, with their dimensions, and the checkpoint. */
  ghost predicate ResultsOf(m: map<string, Computed>, names: seq<string>, tensors: seq<Tensor>,
                            specs: Option<seq<Spec>>, file: CheckpointFile)
    requires |names| == |tensors|
  {
    (forall k :: k in m <==> (specs.Some? && k in names) || (file.Readable? && k == TENSORFLOW_CHECKPOINT)) &&
    (file.Readable? ==> m[TENSORFLOW_CHECKPOINT] == Checkpoint(file.contents)) &&
    forall k | k in m && !(file.Readable? && k == TENSORFLOW_CHECKPOINT) ::
      m[k].Quantity? && Describes(m[k].tensor, tensors[LastOf(names, k)], DimensionsOf(specs.value, k))
  }

  /** The results of a computation.  `specs` is None for a plan without SecAgg tensors. */
  method CreateComputationResults(succeeded: bool, names: seq<string>, tensors: seq<Tensor>, specs: Option<seq<Spec>>,
                                  file: CheckpointFile)
    returns (r: Computation)
    requires |names| == |tensors|
    ensures r.InvalidArgument? <==> !succeeded || (specs.Some? && !Convertible(tensors))
    ensures r.ReadFailed? <==> !r.InvalidArgument? && file.Unreadable?
    ensures r.Results? ==> ResultsOf(r.results, names, tensors, specs, file)
  {
    if !succeeded { return InvalidArgument; }
    var m: map<string, Computed> := map[];
    if specs.Some? {
      var ok;
      ok, m := QuantizeOutputs(names, tensors);
      if !ok { return InvalidArgument; }
      m := AddDimensions(m, specs.value, names, tensors);
    }
    match file
    case NoFile => r := Results(m);
    case Unreadable => r := ReadFailed;
    case Readable(contents) => r := Results(m[TENSORFLOW_CHECKPOINT := Checkpoint(contents)]);
  }

  // ---------------------------------------------------------------- the modulus

  /** What the server says about one aggregand; a modulus of zero means that only the bitwidth was sent. */
  datatype Aggregand = Aggregand(modulus: nat, outputBitwidth: nat)

  function Pow2(n: nat): nat { if n == 0 then 1 else 2 * Pow2(n - 1) }

  function ModulusOf(a: Aggregand): nat { if a.modulus > 0 then a.modulus else Pow2(a.outputBitwidth) }

  lemma {:induction false} Pow2Grows(a: nat, b: nat)
    requires a < b
    ensures Pow2(a) < Pow2(b)
  {
    if a > 0 { Pow2Grows(a - 1, b - 1); } else if b > 1 { Pow2Grows(a, b - 1); }
  }

  /** A bare bitwidth gives a usable modulus exactly from 1 to 62. */
  lemma BitwidthIsUsable(bits: nat)
    ensures 1 < ModulusOf(Aggregand(0, bits)) <= MAX_MODULUS <==> 1 <= bits <= 62
  {
    Pow2At62();
    if bits < 62 { Pow2Grows(bits, 62); } else if bits > 62 { Pow2Grows(62, bits); }
    if bits > 0 { Pow2Grows(0, bits); }
  }

  lemma {:induction false} Pow2Adds(a: nat, b: nat)
    ensures Pow2(a + b) == Pow2(a) * Pow2(b)
  {
    if a > 0 {
      Pow2Adds(a - 1, b);
      assert Pow2(a + b) == 2 * Pow2(a - 1 + b);
    }
  }

  lemma Pow2At62()
    ensures Pow2(62) == MAX_MODULUS
  {
    Pow2Table();
    Pow2Adds(31, 31);
  }

  /** The power of two doubles with each bit, and the modulus is the server's if it gave one. */
  lemma ModulusExactly(modulus: nat, bits: nat)
    ensures modulus > 0 ==> ModulusOf(Aggregand(modulus, bits)) == modulus
    ensures ModulusOf(Aggregand(0, 0)) == 1
    ensures ModulusOf(Aggregand(0, bits + 1)) == 2 * ModulusOf(Aggregand(0, bits))
  {
  }

  /** The entries of a type: all numbers between its smallest and its largest, and nothing else. */
  lemma TypesExactly(d: DType, x: int)
    ensures d == Int8 ==> (Fits(d, x) <==> 0 - Pow2(7) <= x < Pow2(7))
    ensures d == Uint8 ==> (Fits(d, x) <==> 0 <= x < Pow2(8))
    ensures d == Int16 ==> (Fits(d, x) <==> 0 - Pow2(15) <= x < Pow2(15))
    ensures d == Uint16 ==> (Fits(d, x) <==> 0 <= x < Pow2(16))
    ensures d == Int32 ==> (Fits(d, x) <==> 0 - Pow2(31) <= x < Pow2(31))
    ensures d == Int64 ==> (Fits(d, x) <==> 0 - Pow2(63) <= x < Pow2(63))
    ensures d == OtherType ==> Fits(d, x)
  {
    Pow2Table();
    Pow2At62();
    assert Pow2(63) == 2 * Pow2(62);
  }

  /** The bitwidth of a type is that of its largest entry, except for 64-bit integers, where it is what a modulus
      admits. */
  lemma BitwidthExactly(d: DType)
    requires d != OtherType
    ensures d != Int64 ==>
              Fits(d, Pow2(BitwidthOf(d).value) - 1) && !Fits(d, Pow2(BitwidthOf(d).value))
    ensures d == Int64 ==> Pow2(BitwidthOf(d).value) == MAX_MODULUS && Fits(d, MAX_MODULUS)
  {
    Pow2At62();
    Pow2Table();
  }

  lemma Pow2Table()
    ensures Pow2(7) == 0x80 && Pow2(8) == 0x100 && Pow2(15) == 0x8000 && Pow2(16) == 0x1_0000 && Pow2(31) == TWO31
  {
    assert Pow2(4) == 16;
    Pow2Adds(4, 4);
    assert Pow2(8) == 2 * Pow2(7);
    Pow2Adds(8, 8);
    assert Pow2(16) == 2 * Pow2(15);
    Pow2Adds(15, 16);
  }

  // ---------------------------------------------------------------- validation

  /** The checks that a vector passes, in the order of the code. */
  ghost predicate Acceptable(q: Quantized, modulus: int) {
    1 < modulus <= MAX_MODULUS && q.values != [] &&
    ToUint64(ToInt64(Product(q.dimensions))) == |q.values| &&
    forall i | 0 <= i < |q.values| :: q.values[i] < modulus
  }

  datatype VectorSpec = VectorSpec(name: string, length: int, modulus: int)

  datatype Vector = Vector(values: seq<int>, modulus: int)

  datatype Inputs = InternalError | Inputs(specs: seq<VectorSpec>, vectors: map<string, Vector>)

  method Check(q: Quantized, modulus: int) returns (ok: bool, length: int)
    ensures ok <==> Acceptable(q, modulus)
    ensures ok && |q.values| < TWO63 ==> length == |q.values|
  {
    length := 0;
    if modulus <= 1 || modulus > MAX_MODULUS { return false, length; }
    if q.values == [] { return false, length; }
    length := FlattenedLength(q.dimensions);
    if ToUint64(length) != |q.values| { return false, length; }
    for i := 0 to |q.values|
      invariant forall j | 0 <= j < i :: q.values[j] < modulus
    {
      if q.values[i] >= modulus { return false, length; }
    }
    ok := true;
  }

  function GetModulus(sideChannels: map<string, Aggregand>, key: string): (r: Option<nat>)
    ensures r.Some? <==> key in sideChannels
    ensures r.Some? ==>
              r.value == if sideChannels[key].modulus > 0 then sideChannels[key].modulus
                         else Pow2(sideChannels[key].outputBitwidth)
  {
    if key in sideChannels then
      Some(ModulusOf(sideChannels[key]))
    else None
  }

  ghost predicate Passes(results: map<string, Computed>, sideChannels: map<string, Aggregand>, k: string)
    requires k in results
  {
    results[k].Quantity? ==> k in sideChannels && Acceptable(results[k].tensor, ModulusOf(sideChannels[k]))
  }

  /** One vector and one specification for each tensor seen so far; checkpoints are skipped. */
  ghost predicate Covers(specs: seq<VectorSpec>, vectors: map<string, Vector>, seen: set<string>,
                         results: map<string, Computed>, sideChannels: map<string, Aggregand>)
  {
    (forall k | k in seen :: k in results && Passes(results, sideChannels, k)) &&
    (forall k :: k in vectors <==> k in seen && k in results && results[k].Quantity?) &&
    (forall k | k in vectors :: vectors[k] == Vector(results[k].tensor.values, ModulusOf(sideChannels[k]))) &&
    (forall i | 0 <= i < |specs| ::
       specs[i].name in vectors && specs[i].modulus == vectors[specs[i].name].modulus &&
       specs[i].length == ToInt32(|vectors[specs[i].name].values|)) &&
    (forall i, j | 0 <= i < j < |specs| :: specs[i].name != specs[j].name) &&
    |specs| == |vectors|
  }

  lemma CoverOne(specs: seq<VectorSpec>, vectors: map<string, Vector>, seen: set<string>,
                 results: map<string, Computed>, sideChannels: map<string, Aggregand>, k: string, length: int)
    requires Covers(specs, vectors, seen, results, sideChannels)
    requires k in results && k !in seen && results[k].Quantity? && Passes(results, sideChannels, k)
    requires length == |results[k].tensor.values|
    ensures Covers(specs + [VectorSpec(k, ToInt32(length), ModulusOf(sideChannels[k]))],
                   vectors[k := Vector(results[k].tensor.values, ModulusOf(sideChannels[k]))],
                   seen + {k}, results, sideChannels)
  {
    assert forall i | 0 <= i < |specs| :: specs[i].name != k;
  }

  lemma CoverSkip(specs: seq<VectorSpec>, vectors: map<string, Vector>, seen: set<string>,
                  results: map<string, Computed>, sideChannels: map<string, Aggregand>, k: string)
    requires Covers(specs, vectors, seen, results, sideChannels) && k in results && !results[k].Quantity?
    ensures Covers(specs, vectors, seen + {k}, results, sideChannels)
  {}

  function NamesIn(specs: seq<VectorSpec>): set<string> { set i | 0 <= i < |specs| :: specs[i].name }

  lemma {:induction false} NamesInSize(specs: seq<VectorSpec>)
    requires forall i, j | 0 <= i < j < |specs| :: specs[i].name != specs[j].name
    ensures |NamesIn(specs)| == |specs|
  {
    if specs != [] {
      var n := |specs| - 1;
      NamesInSize(specs[..n]);
      assert NamesIn(specs) == NamesIn(specs[..n]) + {specs[n].name};
      assert specs[n].name !in NamesIn(specs[..n]);
    }
  }

  lemma SameSize(a: set<string>, b: set<string>)
    requires a <= b && |a| == |b|
    ensures a == b
  {
    assert |b - a| == |b| - |a|;
  }

  /** Every vector has one specification, of its own name, modulus and 32-bit length. */
  lemma OneSpecEach(specs: seq<VectorSpec>, vectors: map<string, Vector>, results: map<string, Computed>,
                    sideChannels: map<string, Aggregand>, k: string)
    requires Covers(specs, vectors, results.Keys, results, sideChannels) && k in vectors
    ensures exists i :: 0 <= i < |specs| && specs[i] == VectorSpec(k, ToInt32(|vectors[k].values|), vectors[k].modulus)
    ensures forall i, j | 0 <= i < |specs| && 0 <= j < |specs| && specs[i].name == k && specs[j].name == k :: i == j
  {
    NamesInSize(specs);
    SameSize(NamesIn(specs), vectors.Keys);
    assert k in NamesIn(specs);
  }

  /** The input part of the SecAgg run, in whatever order the hash map yields its entries. */
  method PrepareInputs(results: map<string, Computed>, sideChannels: map<string, Aggregand>) returns (r: Inputs)
    requires forall k | k in results && results[k].Quantity? :: |results[k].tensor.values| < TWO63
    ensures r.Inputs? <==> forall k | k in results :: Passes(results, sideChannels, k)
    ensures r.Inputs? ==> Covers(r.specs, r.vectors, results.Keys, results, sideChannels)
  {
    var specs: seq<VectorSpec>, vectors: map<string, Vector> := [], map[];
    var left := results.Items;
    ghost var seen: set<string> := {};
    while left != {}
      invariant forall k | k in results :: k in seen <==> (k, results[k]) !in left
      invariant left <= results.Items
      invariant Covers(specs, vectors, seen, results, sideChannels)
      decreases |left|
    {
      var item :| item in left;
      var k, v := item.0, item.1;
      assert k in results && results[k] == v;
      if v.Quantity? {
        var modulus := GetModulus(sideChannels, k);
        if modulus.None? {
          assert !Passes(results, sideChannels, k);
          return InternalError;
        }
        var ok, length := Check(v.tensor, modulus.value);
        if !ok {
          assert !Passes(results, sideChannels, k);
          return InternalError;
        }
        CoverOne(specs, vectors, seen, results, sideChannels, k, length);
        specs := specs + [VectorSpec(k, ToInt32(length), modulus.value)];
        vectors := vectors[k := Vector(v.tensor.values, modulus.value)];
      } else {
        CoverSkip(specs, vectors, seen, results, sideChannels, k);
      }
      seen := seen + {k};
      left := left - {item};
    }
    assert seen == results.Keys;
    r := Inputs(specs, vectors);
  }

  // ---------------------------------------------------------------- what the SecAgg client receives

  /** A tensor is accepted exactly when its original entries lie in [0, modulus) and its length is the product of
      its dimensions in 64-bit arithmetic; what is handed over is then the original entries.  A negative entry,
      which the conversion made large, is therefore always rejected. */
  lemma AcceptedExactly(t: Tensor, q: Quantized, dimensions: seq<int>, modulus: int)
    requires TensorValid(t) && Describes(q, t, dimensions)
    ensures Acceptable(q, modulus) <==>
              1 < modulus <= MAX_MODULUS && t.entries != [] &&
              (forall i | 0 <= i < |t.entries| :: 0 <= t.entries[i] < modulus) &&
              ToUint64(Product(dimensions)) == |t.entries|
    ensures Acceptable(q, modulus) ==> q.values == t.entries
  {
    SameLowBits(Product(dimensions));
    if 1 < modulus <= MAX_MODULUS {
      forall i | 0 <= i < |t.entries|
        ensures q.values[i] < modulus <==> 0 <= t.entries[i] < modulus
        ensures q.values[i] < modulus ==> q.values[i] == t.entries[i]
      {
        EntryBelowModulus(t.dtype, t.entries[i], modulus);
      }
    }
  }

  lemma SameLowBits(x: int)
    ensures ToUint64(ToInt64(x)) == ToUint64(x)
  {
  }

  lemma EntryBelowModulus(d: DType, x: int, modulus: int)
    requires Fits(d, x) && d != OtherType && modulus <= MAX_MODULUS
    ensures ToUint64(x) < modulus <==> 0 <= x < modulus
    ensures ToUint64(x) < modulus ==> ToUint64(x) == x
  {
    assert -TWO63 <= x < TWO63;
    assert ToUint64(x) == if x < 0 then x + TWO64 else x;
  }

  /** The length check means what it says exactly when the true product is a 63-bit number. */
  lemma LengthIsProductExactly(dimensions: seq<int>, length: nat)
    requires length < TWO63 && ToUint64(Product(dimensions)) == length
    ensures length == Product(dimensions) <==> 0 <= Product(dimensions) < TWO63
  {}

  /** Where overflow wraps around, it passes: 7 times this dimension is 3 * 2^64 + 1, and counts as one entry. */
  lemma OverflowPassesTheCheck()
    ensures Acceptable(Quantized([0], 31, [7, 7905747460161236407]), 2)
    ensures Product([7, 7905747460161236407]) != 1
  {
    var dims := [7, 7905747460161236407];
    assert dims[..1] == [7] && dims[..1][..0] == [];
    assert Product(dims[..1]) == 7;
    assert Product(dims) == 3 * TWO64 + 1;
  }

  /** The specification's 32-bit length agrees with its vector exactly below 2^31 entries. */
  lemma SpecLengthExactly(length: nat)
    requires length < TWO63
    ensures ToInt32(length) == length <==> length < TWO31
  {}

  /** From the plan's outputs to the SecAgg client: every vector is the last output of its name, entry by entry,
      below its modulus, and if any entry of a kept output is negative nothing is handed over. */
  lemma HandedOverExactly(names: seq<string>, tensors: seq<Tensor>, specs: seq<Spec>, file: CheckpointFile,
                          results: map<string, Computed>, sideChannels: map<string, Aggregand>,
                          vectorSpecs: seq<VectorSpec>, vectors: map<string, Vector>)
    requires |names| == |tensors| && forall i | 0 <= i < |tensors| :: TensorValid(tensors[i])
    requires ResultsOf(results, names, tensors, Some(specs), file)
    requires Covers(vectorSpecs, vectors, results.Keys, results, sideChannels)
    ensures forall k | k in names && !(file.Readable? && k == TENSORFLOW_CHECKPOINT) ::
              k in vectors && vectors[k].values == tensors[LastOf(names, k)].entries &&
              (forall i | 0 <= i < |vectors[k].values| :: 0 <= vectors[k].values[i] < vectors[k].modulus) &&
              ToUint64(Product(DimensionsOf(specs, k))) == |vectors[k].values|
    ensures forall k | k in vectors :: k in names && !(file.Readable? && k == TENSORFLOW_CHECKPOINT)
  {
    forall k | k in names && !(file.Readable? && k == TENSORFLOW_CHECKPOINT)
      ensures k in vectors && vectors[k].values == tensors[LastOf(names, k)].entries
      ensures forall i | 0 <= i < |vectors[k].values| :: 0 <= vectors[k].values[i] < vectors[k].modulus
      ensures ToUint64(Product(DimensionsOf(specs, k))) == |vectors[k].values|
    {
      assert k in results && Passes(results, sideChannels, k);
      AcceptedExactly(tensors[LastOf(names, k)], results[k].tensor, DimensionsOf(specs, k), ModulusOf(sideChannels[k]));
    }
  }
}
