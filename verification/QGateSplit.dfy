/**
 Splitting a fused query/gate projection into two (scripts/patch-mlx-lm-qwen3next-qgate-
 split.py): a permutation of the rows of the checkpoint's tensors.  Tensors are lists of
 rows; what a projection does with one row is a parameter.
 */
module QGateSplit {
  import opened Arith
  import opened Text
  import opened Wrappers

  type Row = seq<real>
  type Tensor = seq<Row>
  type Weights = map<string, Tensor>

  // ----- Keys -----

  const Q_PROJ: string := ".q_proj."
  const GATE_PROJ: string := ".q_gate_proj."

  /** The keys the source selects by their ending. */
  predicate IsQProj(key: string) {
    EndsWith(key, ".q_proj.weight") || EndsWith(key, ".q_proj.scales") || EndsWith(key, ".q_proj.biases")
  }

  /** key.rsplit(".", 1)[-1]. */
  function AfterLastDot(key: string): string {
    if key == "" || key[|key| - 1] == '.' then "" else AfterLastDot(key[..|key| - 1]) + [key[|key| - 1]]
  }

  function GateKey(key: string): string
    requires IsQProj(key)
  {
    var name := AfterLastDot(key);
    var cut := |Q_PROJ| + |name|;
    (if cut <= |key| then key[..|key| - cut] else "") + GATE_PROJ + name
  }

  lemma {:induction false} AfterDot(front: string, name: string)
    requires forall i :: 0 <= i < |name| ==> name[i] != '.'
    ensures AfterLastDot(front + "." + name) == name
    decreases |name|
  {
    var key := front + "." + name;
    if name != "" {
      assert key[..|key| - 1] == front + "." + name[..|name| - 1];
      AfterDot(front, name[..|name| - 1]);
    }
  }

  lemma KnownTail(tail: string)
    requires tail == ".q_proj.weight" || tail == ".q_proj.scales" || tail == ".q_proj.biases"
    ensures |tail| == 14 && tail == ".q_proj" + "." + tail[8..] && forall i :: 8 <= i < 14 ==> tail[i] != '.'
  {
  }

  lemma Parts(p: string, q: string, d: string, name: string)
    requires |q| == 7 && |d| == 1 && |name| == 6
    ensures var key := p + (q + d + name);
            && key == p + q + d + name == p + (q + d) + name
            && key[..|key| - 14] == p && key[|key| - 6..] == name
  {
  }

  /** A selected key is a prefix, ".q_proj." and one of three names. */
  lemma KeyParts(key: string) returns (p: string, name: string)
    requires IsQProj(key)
    ensures |name| == 6 && key == p + Q_PROJ + name
    ensures AfterLastDot(key) == name && GateKey(key) == p + GATE_PROJ + name
  {
    var tail := key[|key| - 14..];
    KnownTail(tail);
    p, name := key[..|key| - 14], tail[8..];
    assert key == p + tail;
    Parts(p, ".q_proj", ".", name);
    assert ".q_proj" + "." == Q_PROJ;
    AfterDot(p + ".q_proj", name);
  }

  /** The fused key a gate key comes from, read back from its ending. */
  function FusedKey(g: string): Option<string> {
    if |g| >= 19 && g[|g| - 19..|g| - 6] == GATE_PROJ then Some(g[..|g| - 19] + Q_PROJ + g[|g| - 6..]) else None
  }

  lemma GateKeyReadsBack(key: string)
    requires IsQProj(key)
    ensures FusedKey(GateKey(key)) == Some(key)
  {
    var p, name := KeyParts(key);
    var g := p + GATE_PROJ + name;
    assert g[|g| - 19..|g| - 6] == GATE_PROJ && g[..|g| - 19] == p && g[|g| - 6..] == name;
  }

  lemma FusedKeyReadsBack(g: string, key: string)
    requires FusedKey(g) == Some(key) && IsQProj(key)
    ensures g == GateKey(key)
  {
    var p, name := KeyParts(key);
    assert key[..|key| - 14] == p && key[|key| - 6..] == name;
    assert (g[..|g| - 19] + Q_PROJ + g[|g| - 6..])[..|key| - 14] == g[..|g| - 19];
    assert (g[..|g| - 19] + Q_PROJ + g[|g| - 6..])[|key| - 6..] == g[|g| - 6..];
    assert g == g[..|g| - 19] + g[|g| - 19..|g| - 6] + g[|g| - 6..];
  }

  /** A gate key is never selected again, and a selected key is no gate key. */
  lemma KindsOfKeysApart(key: string)
    requires IsQProj(key)
    ensures !IsQProj(GateKey(key)) && FusedKey(key) == None
  {
    var p, name := KeyParts(key);
    var g := p + GATE_PROJ + name;
    assert g[|g| - 14] == 't' && g[|g| - 14..][0] == 't';
    assert key[|key| - 14] == '.';
    if |key| >= 19 { assert key[|key| - 19..|key| - 6][5] == '.' && GATE_PROJ[5] == 't'; }
  }

  // ----- Rows -----

  lemma NonzeroDim(count: nat, dim: nat, r: nat)
    requires r < count * dim
    ensures dim > 0
  {
    MulMonotone(dim, 0, count);
  }

  /** Sizes: attention heads, rows a head. */
  datatype Heads = Heads(count: nat, dim: nat) {
    function Half(): nat { count * dim }

    /** Rows of the fused tensor: queries then gate, head by head. */
    function Fused(): nat { count * 2 * dim }

    /** Row r of the query (or gate) half is this row of the fused tensor. */
    function At(gate: bool, r: nat): nat
      requires r < Half()
    {
      NonzeroDim(count, dim, r);
      Quotient(r, dim);
      r / dim * 2 * dim + (if gate then dim else 0) + r % dim
    }
  }

  lemma DoubleRow(h: nat, dim: nat, gate: bool)
    ensures h * 2 * dim + (if gate then dim else 0) == (2 * h + (if gate then 1 else 0)) * dim
  {
    Distribute(2 * h, 1, dim);
  }

  /** Row (h, d) of a half, in both numberings. */
  lemma HeadAndDim(s: Heads, gate: bool, h: nat, d: nat)
    requires h < s.count && d < s.dim
    ensures h * s.dim + d < s.Half() && s.At(gate, h * s.dim + d) == h * 2 * s.dim + (if gate then s.dim else 0) + d
    ensures s.At(gate, h * s.dim + d) < s.Fused()
  {
    DigitsBelow(h, s.count, d, s.dim);
    DivModUnique(h, d, s.dim);
    DoubleRow(h, s.dim, gate);
    DigitsBelow(2 * h + (if gate then 1 else 0), s.count * 2, d, s.dim);
  }

  lemma HalfParts(s: Heads, r: nat)
    requires r < s.Half()
    ensures s.dim > 0 && r / s.dim < s.count && r == r / s.dim * s.dim + r % s.dim
  {
    MulMonotone(s.dim, 0, s.count);
    DigitsBelow(r / s.dim, s.count, r % s.dim, s.dim);
  }

  lemma AtInRange(s: Heads, gate: bool, r: nat)
    requires r < s.Half()
    ensures s.At(gate, r) < s.Fused()
  {
    HalfParts(s, r);
    HeadAndDim(s, gate, r / s.dim, r % s.dim);
  }

  /** Where fused row i goes: which half, and which row of it. */
  function Home(s: Heads, i: nat): (bool, nat)
    requires s.dim > 0
  {
    (i / s.dim % 2 == 1, i / s.dim / 2 * s.dim + i % s.dim)
  }

  lemma HomeOf(s: Heads, gate: bool, r: nat)
    requires r < s.Half()
    ensures s.dim > 0 && Home(s, s.At(gate, r)) == (gate, r)
  {
    HalfParts(s, r);
    var h, d := r / s.dim, r % s.dim;
    HeadAndDim(s, gate, h, d);
    DoubleRow(h, s.dim, gate);
    DivModUnique(2 * h + (if gate then 1 else 0), d, s.dim);
  }

  lemma AtHome(s: Heads, i: nat)
    requires i < s.Fused()
    ensures s.dim > 0 && Home(s, i).1 < s.Half() && s.At(Home(s, i).0, Home(s, i).1) == i
  {
    MulMonotone(s.dim, 0, s.count * 2);
    var b, d := i / s.dim, i % s.dim;
    DigitsBelow(b, s.count * 2, d, s.dim);
    Quotient(i, s.dim);
    assert 2 * (b / 2) + (if b % 2 == 1 then 1 else 0) == b;
    HeadAndDim(s, b % 2 == 1, b / 2, d);
    DoubleRow(b / 2, s.dim, b % 2 == 1);
  }

  /** The row map is a bijection: every fused row goes to exactly one row of one half. */
  lemma RowMapIsBijection(s: Heads, i: nat, gate: bool, r: nat)
    requires i < s.Fused() && r < s.Half()
    ensures s.At(gate, r) < s.Fused()
    ensures s.dim > 0 && Home(s, i).1 < s.Half()
    ensures s.At(gate, r) == i <==> Home(s, i) == (gate, r)
  {
    AtInRange(s, gate, r);
    HomeOf(s, gate, r);
    AtHome(s, i);
  }

  /** value.reshape(heads, 2, dim, ...)[:, 0 or 1] flattened again. */
  function HalfRows<T>(s: Heads, gate: bool, fused: seq<T>): (half: seq<T>)
    requires |fused| == s.Fused()
    ensures |half| == s.Half()
    ensures forall r :: 0 <= r < |half| ==> s.At(gate, r) < |fused| && half[r] == fused[s.At(gate, r)]
  {
    assert forall r :: 0 <= r < s.Half() ==> s.At(gate, r) < s.Fused() by {
      forall r | 0 <= r < s.Half() ensures s.At(gate, r) < s.Fused() { AtInRange(s, gate, r); }
    }
    seq(s.Half(), r requires 0 <= r < s.Half() => fused[s.At(gate, r)])
  }

  // ----- The dictionary -----

  predicate Splits(s: Heads, m: Weights, key: string) {
    key in m && IsQProj(key) && |m[key]| == s.Fused()
  }

  function Lookup(m: Weights, k: string): Option<Tensor> {
    if k in m then Some(m[k]) else None
  }

  /** What key k holds once the keys in `done` have been visited. */
  function Target(s: Heads, m: Weights, done: set<string>, k: string): Option<Tensor> {
    if k in done && Splits(s, m, k) then Some(HalfRows(s, false, m[k]))
    else
      match FusedKey(k)
      case Some(j) => if j in done && Splits(s, m, j) then Some(HalfRows(s, true, m[j])) else Lookup(m, k)
      case None => Lookup(m, k)
  }

  ghost predicate SplitSoFar(s: Heads, m: Weights, m': Weights, done: set<string>) {
    forall k :: Lookup(m', k) == Target(s, m, done, k)
  }

  /** The dictionary after the call. */
  ghost predicate IsSplitOf(s: Heads, m: Weights, m': Weights) {
    SplitSoFar(s, m, m', m.Keys)
  }

  lemma VisitOne(s: Heads, m: Weights, m': Weights, done: set<string>, key: string)
    requires SplitSoFar(s, m, m', done) && key in m && key !in done
    ensures IsQProj(key) ==> key in m' && m'[key] == m[key]
    ensures var m'' := if Splits(s, m, key)
              then m'[key := HalfRows(s, false, m[key])][GateKey(key) := HalfRows(s, true, m[key])] else m';
            SplitSoFar(s, m, m'', done + {key})
  {
    assert Lookup(m', key) == Target(s, m, done, key);
    if IsQProj(key) { KindsOfKeysApart(key); }
    if Splits(s, m, key) {
      GateKeyReadsBack(key);
      var gate := GateKey(key);
      var m'' := m'[key := HalfRows(s, false, m[key])][gate := HalfRows(s, true, m[key])];
      forall k ensures Lookup(m'', k) == Target(s, m, done + {key}, k) {
        assert Lookup(m', k) == Target(s, m, done, k);
        if k != gate && FusedKey(k) == Some(key) { FusedKeyReadsBack(k, key); }
      }
    }
  }

  /** split.py:60-76. */
  method SplitQGateWeights(weights: Weights, s: Heads) returns (out: Weights)
    ensures IsSplitOf(s, weights, out)
  {
    out := weights;
    var todo := weights.Keys;
    while todo != {}
      invariant todo <= weights.Keys
      invariant SplitSoFar(s, weights, out, weights.Keys - todo)
      decreases todo
    {
      var key :| key in todo;
      VisitOne(s, weights, out, weights.Keys - todo, key);
      assert weights.Keys - (todo - {key}) == weights.Keys - todo + {key};
      if IsQProj(key) && |out[key]| == s.Fused() {
        var value := out[key];
        out := out[key := HalfRows(s, false, value)][GateKey(key) := HalfRows(s, true, value)];
      }
      todo := todo - {key};
    }
    assert weights.Keys - todo == weights.Keys;
  }

  lemma HalfVersusFused(s: Heads)
    ensures s.Fused() == 2 * s.Half()
  {
    Distribute(s.count, s.count, s.dim);
  }

  lemma SplitEntry(s: Heads, m: Weights, m': Weights, key: string)
    requires IsSplitOf(s, m, m') && IsQProj(key) && key in m
    ensures key in m' && m'[key] == (if Splits(s, m, key) then HalfRows(s, false, m[key]) else m[key])
    ensures Splits(s, m, key) ==> GateKey(key) in m' && m'[GateKey(key)] == HalfRows(s, true, m[key])
  {
    KindsOfKeysApart(key);
    assert Lookup(m', key) == Target(s, m, m.Keys, key);
    if Splits(s, m, key) {
      GateKeyReadsBack(key);
      assert Lookup(m', GateKey(key)) == Target(s, m, m.Keys, GateKey(key));
    }
  }

  /** Keys that are neither selected nor written are untouched, and none are invented. */
  lemma OtherKeysUntouched(s: Heads, m: Weights, m': Weights, k: string)
    requires IsSplitOf(s, m, m') && !IsQProj(k) && (FusedKey(k) == None || !Splits(s, m, FusedKey(k).value))
    ensures Lookup(m', k) == Lookup(m, k)
  {
    assert Lookup(m', k) == Target(s, m, m.Keys, k);
  }

  /** Splitting what is already split changes nothing. */
  lemma SecondSplitChangesNothing(s: Heads, m: Weights, m': Weights, m'': Weights)
    requires IsSplitOf(s, m, m') && IsSplitOf(s, m', m'')
    ensures m'' == m'
  {
    HalfVersusFused(s);
    forall k ensures Lookup(m'', k) == Lookup(m', k) {
      assert Lookup(m'', k) == Target(s, m', m'.Keys, k);
      if Splits(s, m', k) {
        StillSplits(s, m, m', k);
      } else if FusedKey(k).Some? && Splits(s, m', FusedKey(k).value) {
        StillSplits(s, m, m', FusedKey(k).value);
        FusedKeyReadsBack(k, FusedKey(k).value);
      }
    }
    assert forall k :: k in m'' <==> k in m' by {
      forall k ensures k in m'' <==> k in m' { assert Lookup(m'', k) == Lookup(m', k); }
    }
    forall k | k in m' ensures m''[k] == m'[k] { assert Lookup(m'', k) == Lookup(m', k); }
  }

  /** A split tensor only has the fused size when both are empty. */
  lemma StillSplits(s: Heads, m: Weights, m': Weights, k: string)
    requires IsSplitOf(s, m, m') && Splits(s, m', k)
    ensures s.Half() == 0 && Splits(s, m, k)
    ensures m'[k] == [] && GateKey(k) in m' && m'[GateKey(k)] == []
  {
    HalfVersusFused(s);
    KindsOfKeysApart(k);
    assert Lookup(m', k) == Target(s, m, m.Keys, k);
    SplitEntry(s, m, m', k);
  }

  // ----- The projection -----

  /** One output value from a weight row, its scales and biases if quantized, and the input;
      and the addition of a linear bias. */
  datatype Kernel = Kernel(row: (Row, Option<Row>, Option<Row>, Row) -> real, addBias: (real, Row) -> real)

  predicate SameRows(t: Option<Tensor>, n: nat) {
    t.Some? ==> |t.value| == n
  }

  function RowOf(t: Option<Tensor>, r: nat): Option<Row>
    requires t.Some? ==> r < |t.value|
  {
    if t.None? then None else Some(t.value[r])
  }

  /** A linear layer under the key prefix `p`; None when its tensors do not fit together or
      do not have `n` rows. */
  function Project(k: Kernel, m: Weights, p: string, n: nat, x: Row): Option<seq<real>> {
    var w, sc := Lookup(m, p + "weight"), Lookup(m, p + "scales");
    var bi, b := Lookup(m, p + "biases"), Lookup(m, p + "bias");
    if w.None? || |w.value| != n || !SameRows(sc, n) || !SameRows(bi, n) || !SameRows(b, n) then None
    else Some(ProjectRows(k, n, w.value, sc, bi, b, x))
  }

  function ProjectRows(k: Kernel, n: nat, w: Tensor, sc: Option<Tensor>, bi: Option<Tensor>, b: Option<Tensor>,
                       x: Row): (out: seq<real>)
    requires |w| == n && SameRows(sc, n) && SameRows(bi, n) && SameRows(b, n)
    ensures |out| == n
  {
    seq(n, r requires 0 <= r < n => Value(k, w[r], RowOf(sc, r), RowOf(bi, r), RowOf(b, r), x))
  }

  function Value(k: Kernel, w: Row, sc: Option<Row>, bi: Option<Row>, b: Option<Row>, x: Row): real {
    var y := k.row(w, sc, bi, x);
    if b.None? then y else k.addBias(y, b.value)
  }

  /** Queries by head and dimension, gate flattened: split.py:49-54. */
  datatype Attention = Attention(queries: seq<seq<real>>, gate: seq<real>)

  function Reshape(s: Heads, flat: seq<real>): seq<seq<real>>
    requires |flat| == s.Half()
  {
    seq(s.count, h requires 0 <= h < s.count =>
      seq(s.dim, d requires 0 <= d < s.dim => (HeadAndDim(s, false, h, d); flat[h * s.dim + d])))
  }

  function SplitQueries(s: Heads, out: seq<real>): seq<seq<real>>
    requires |out| == s.Fused()
  {
    seq(s.count, h requires 0 <= h < s.count =>
      seq(s.dim, d requires 0 <= d < s.dim => (HeadAndDim(s, false, h, d); out[h * 2 * s.dim + d])))
  }

  function OldCall(k: Kernel, s: Heads, m: Weights, layer: string, x: Row): Option<Attention> {
    match Project(k, m, layer + Q_PROJ, s.Fused(), x)
    case None => None
    case Some(out) => Some(Attention(SplitQueries(s, out), HalfRows(s, true, out)))
  }

  /** split.py:55-57. */
  function NewCall(k: Kernel, s: Heads, m: Weights, layer: string, x: Row): Option<Attention> {
    match Project(k, m, layer + Q_PROJ, s.Half(), x)
    case None => None
    case Some(q) =>
      match Project(k, m, layer + GATE_PROJ, s.Half(), x)
      case None => None
      case Some(gate) => Some(Attention(Reshape(s, q), gate))
  }

  // ----- The two calls agree -----

  predicate SplitName(name: string) {
    name == "weight" || name == "scales" || name == "biases"
  }

  lemma KeysOfLayer(layer: string, name: string)
    requires SplitName(name)
    ensures IsQProj(layer + Q_PROJ + name) && GateKey(layer + Q_PROJ + name) == layer + GATE_PROJ + name
  {
    var key := layer + Q_PROJ + name;
    assert key[|key| - 14..] == Q_PROJ + name;
    assert Q_PROJ + "weight" == ".q_proj.weight" && Q_PROJ + "scales" == ".q_proj.scales";
    assert Q_PROJ + "biases" == ".q_proj.biases";
    var p, n := KeyParts(key);
    assert key[..|key| - 14] == layer && (p + Q_PROJ + n)[..|key| - 14] == p;
    assert key[|key| - 6..] == name && (p + Q_PROJ + n)[|key| - 6..] == n;
  }

  lemma BiasKeys(layer: string, part: string)
    requires part == Q_PROJ || part == GATE_PROJ
    ensures !IsQProj(layer + part + "bias") && FusedKey(layer + part + "bias") == None
  {
    var key := layer + part + "bias";
    assert key[|key| - 1] == 's' && key[|key| - 2] == 'a' && key[|key| - 7] == 'o';
    var w, sc, bi := ".q_proj.weight", ".q_proj.scales", ".q_proj.biases";
    assert w[13] == 't' && sc[12] == 'e' && bi[12] == 'e';
    assert |key| >= 14 ==> key[|key| - 14..][13] == 's' && key[|key| - 14..][12] == 'a';
    if |key| >= 19 { assert key[|key| - 19..|key| - 6][12] == 'o' && GATE_PROJ[12] == '.'; }
  }

  /** One tensor of a layer: all three have the fused size or are absent. */
  ghost predicate FusedEntry(s: Heads, m: Weights, layer: string, name: string) {
    SameRows(Lookup(m, layer + Q_PROJ + name), s.Fused()) && layer + GATE_PROJ + name !in m
  }

  /** A layer as the fused checkpoint stores it. */
  ghost predicate FusedLayer(s: Heads, m: Weights, layer: string) {
    && layer + Q_PROJ + "weight" in m
    && FusedEntry(s, m, layer, "weight") && FusedEntry(s, m, layer, "scales") && FusedEntry(s, m, layer, "biases")
    && layer + GATE_PROJ + "bias" !in m
  }

  function HalfOf(s: Heads, gate: bool, t: Option<Tensor>): Option<Tensor>
    requires SameRows(t, s.Fused())
  {
    if t.None? then None else Some(HalfRows(s, gate, t.value))
  }

  lemma SplitTensor(s: Heads, m: Weights, m': Weights, layer: string, name: string)
    requires IsSplitOf(s, m, m') && SplitName(name) && FusedEntry(s, m, layer, name)
    ensures Lookup(m', layer + Q_PROJ + name) == HalfOf(s, false, Lookup(m, layer + Q_PROJ + name))
    ensures Lookup(m', layer + GATE_PROJ + name) == HalfOf(s, true, Lookup(m, layer + Q_PROJ + name))
  {
    var key := layer + Q_PROJ + name;
    KeysOfLayer(layer, name);
    KindsOfKeysApart(key);
    GateKeyReadsBack(key);
    assert Lookup(m', key) == Target(s, m, m.Keys, key);
    assert Lookup(m', GateKey(key)) == Target(s, m, m.Keys, GateKey(key));
  }

  lemma SplitBias(s: Heads, m: Weights, m': Weights, layer: string)
    requires IsSplitOf(s, m, m')
    ensures Lookup(m', layer + Q_PROJ + "bias") == Lookup(m, layer + Q_PROJ + "bias")
    ensures Lookup(m', layer + GATE_PROJ + "bias") == Lookup(m, layer + GATE_PROJ + "bias")
  {
    BiasKeys(layer, Q_PROJ);
    BiasKeys(layer, GATE_PROJ);
    OtherKeysUntouched(s, m, m', layer + Q_PROJ + "bias");
    OtherKeysUntouched(s, m, m', layer + GATE_PROJ + "bias");
  }

  /** Rows are projected one by one, so halving commutes with projecting. */
  lemma ProjectHalf(k: Kernel, s: Heads, gate: bool, w: Tensor, sc: Option<Tensor>, bi: Option<Tensor>, x: Row)
    requires |w| == s.Fused() && SameRows(sc, s.Fused()) && SameRows(bi, s.Fused())
    ensures ProjectRows(k, s.Half(), HalfRows(s, gate, w), HalfOf(s, gate, sc), HalfOf(s, gate, bi), None, x)
            == HalfRows(s, gate, ProjectRows(k, s.Fused(), w, sc, bi, None, x))
  {
    var a := ProjectRows(k, s.Half(), HalfRows(s, gate, w), HalfOf(s, gate, sc), HalfOf(s, gate, bi), None, x);
    var b := HalfRows(s, gate, ProjectRows(k, s.Fused(), w, sc, bi, None, x));
    forall r | 0 <= r < s.Half() ensures a[r] == b[r] { AtInRange(s, gate, r); }
  }

  /** Without a linear bias the split layer's two projections are the halves of the fused one. */
  lemma HalvesOfProjection(k: Kernel, s: Heads, m: Weights, m': Weights, layer: string, x: Row)
    requires IsSplitOf(s, m, m') && FusedLayer(s, m, layer) && layer + Q_PROJ + "bias" !in m
    ensures var out := Project(k, m, layer + Q_PROJ, s.Fused(), x);
            && out.Some?
            && Project(k, m', layer + Q_PROJ, s.Half(), x) == Some(HalfRows(s, false, out.value))
            && Project(k, m', layer + GATE_PROJ, s.Half(), x) == Some(HalfRows(s, true, out.value))
  {
    SplitTensor(s, m, m', layer, "weight");
    SplitTensor(s, m, m', layer, "scales");
    SplitTensor(s, m, m', layer, "biases");
    SplitBias(s, m, m', layer);
    var w := m[layer + Q_PROJ + "weight"];
    var sc, bi := Lookup(m, layer + Q_PROJ + "scales"), Lookup(m, layer + Q_PROJ + "biases");
    ProjectHalf(k, s, false, w, sc, bi, x);
    ProjectHalf(k, s, true, w, sc, bi, x);
  }

  lemma QueryAgrees(s: Heads, out: seq<real>, h: nat, d: nat)
    requires |out| == s.Fused() && h < s.count && d < s.dim
    ensures Reshape(s, HalfRows(s, false, out))[h][d] == SplitQueries(s, out)[h][d]
  {
    HeadAndDim(s, false, h, d);
  }

  lemma QueriesAgree(s: Heads, out: seq<real>)
    requires |out| == s.Fused()
    ensures Reshape(s, HalfRows(s, false, out)) == SplitQueries(s, out)
  {
    var a, b := Reshape(s, HalfRows(s, false, out)), SplitQueries(s, out);
    forall h | 0 <= h < s.count ensures a[h] == b[h] {
      forall d | 0 <= d < s.dim ensures a[h][d] == b[h][d] { QueryAgrees(s, out, h, d); }
    }
  }

  /** Same queries and same gate for every weight, input, head and dimension. */
  lemma SameAttention(k: Kernel, s: Heads, m: Weights, m': Weights, layer: string, x: Row)
    requires IsSplitOf(s, m, m') && FusedLayer(s, m, layer) && layer + Q_PROJ + "bias" !in m
    ensures OldCall(k, s, m, layer, x).Some? && NewCall(k, s, m', layer, x) == OldCall(k, s, m, layer, x)
  {
    HalvesOfProjection(k, s, m, m', layer, x);
    QueriesAgree(s, Project(k, m, layer + Q_PROJ, s.Fused(), x).value);
  }

  /** The condition is exact: a layer with a linear bias (attention_bias) keeps its fused bias
      and no longer fits its projection. */
  lemma SameAttentionIffNoBias(k: Kernel, s: Heads, m: Weights, m': Weights, layer: string, x: Row)
    requires IsSplitOf(s, m, m') && FusedLayer(s, m, layer) && s.Half() > 0
    requires SameRows(Lookup(m, layer + Q_PROJ + "bias"), s.Fused())
    ensures OldCall(k, s, m, layer, x).Some?
    ensures NewCall(k, s, m', layer, x) == OldCall(k, s, m, layer, x) <==> layer + Q_PROJ + "bias" !in m
  {
    if layer + Q_PROJ + "bias" in m {
      HalfVersusFused(s);
      SplitBias(s, m, m', layer);
    } else {
      SameAttention(k, s, m, m', layer, x);
    }
  }
}
