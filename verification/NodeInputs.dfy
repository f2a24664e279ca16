/** hamilton/node.py: `reassign_inputs`, and when a node with renamed and bound inputs still computes the same. */
module NodeInputs {
  import opened Prelude

  /** A node as its inputs, in order, and its callable on keyword arguments. */
  datatype InputNode<T, !V> = InputNode(inputs: Dict<Name, T>, fn: Dict<Name, V> -> Outcome<V>)

  /** `d.get(k, k)`. */
  function Get(d: Dict<Name, Name>, k: Name): Name {
    if d == [] then k else if d[0].0 == k then d[0].1 else Get(d[1..], k)
  }

  function RenameKeys<V>(d: Dict<Name, V>, names: Dict<Name, Name>): (r: seq<(Name, V)>)
    ensures |r| == |d| && forall i :: 0 <= i < |d| ==> r[i] == (Get(names, d[i].0), d[i].1)
  {
    seq(|d|, i requires 0 <= i < |d| => (Get(names, d[i].0), d[i].1))
  }

  /** `{v: k for k, v in input_names.items()}`. */
  function Reverse(names: Dict<Name, Name>): Dict<Name, Name> {
    DictOf(seq(|names|, i requires 0 <= i < |names| => (names[i].1, names[i].0)))
  }

  // ---------------------------------------------------------------- reassign_inputs

  /** What the original callable is called with: `{**kwargs, **input_values}`, renamed back. */
  function Passed<V>(names: Dict<Name, Name>, values: Dict<Name, V>, kwargs: Dict<Name, V>): Dict<Name, V> {
    DictOf(RenameKeys(DictOf(kwargs + values), Reverse(names)))
  }

  /** The inputs that are not bound to a value. */
  function Kept<T, V>(inputs: Dict<Name, T>, values: Dict<Name, V>): Dict<Name, T> {
    if inputs == [] then []
    else
      var last := inputs[|inputs| - 1];
      Kept(inputs[..|inputs| - 1], values) + if HasKey(values, last.0) then [] else [last]
  }

  function ReassignInputs<T, V>(node: InputNode<T, V>, names: Dict<Name, Name>, values: Dict<Name, V>): InputNode<T, V>
  {
    InputNode(DictOf(RenameKeys(Kept(node.inputs, values), names)), kwargs => node.fn(Passed(names, values, kwargs)))
  }

  // ---------------------------------------------------------------- when it preserves meaning

  /** The renamed names of kept inputs are read back, and bound names are left alone. */
  predicate ReadsBack(names: Dict<Name, Name>, kept: seq<Name>, bound: seq<Name>) {
    && (forall i :: 0 <= i < |kept| ==> Get(Reverse(names), Get(names, kept[i])) == kept[i])
    && (forall i :: 0 <= i < |bound| ==> Get(Reverse(names), bound[i]) == bound[i])
  }

  function Keys<V>(d: Dict<Name, V>): (r: seq<Name>)
    ensures |r| == |d| && forall i :: 0 <= i < |d| ==> r[i] == d[i].0
  {
    seq(|d|, i requires 0 <= i < |d| => d[i].0)
  }

  ghost predicate KeysAmong<V>(d: Dict<Name, V>, names: seq<Name>) {
    forall i :: 0 <= i < |d| ==> d[i].0 in names
  }

  /** If names are read back, the original callable gets exactly the original arguments and the bound values. */
  lemma PassedBack<V>(names: Dict<Name, Name>, kept: seq<Name>, bound: seq<Name>, d: Dict<Name, V>,
                      values: Dict<Name, V>)
    requires ReadsBack(names, kept, bound) && DistinctKeys(d + values)
    requires KeysAmong(d, kept) && KeysAmong(values, bound)
    ensures Passed(names, values, RenameKeys(d, names)) == d + values
  {
    var renamed := RenameKeys(d, names);
    var back := Reverse(names);
    hide Reverse;
    forall i | 0 <= i < |d| ensures Get(back, renamed[i].0) == d[i].0 {
      var j :| 0 <= j < |kept| && kept[j] == d[i].0;
    }
    forall i | 0 <= i < |values| ensures Get(back, values[i].0) == values[i].0 {
      var j :| 0 <= j < |bound| && bound[j] == values[i].0;
    }
    var all := renamed + values;
    forall i | 0 <= i < |all| ensures Get(back, all[i].0) == (d + values)[i].0 {}
    assert DistinctKeys(all) by {
      forall i, j | 0 <= i < j < |all| ensures all[i].0 != all[j].0 {
        assert (d + values)[i].0 != (d + values)[j].0;
      }
    }
    DictOfDistinct(all);
    assert RenameKeys(all, back) == d + values;
    DictOfDistinct(d + values);
  }

  /**
   * `reassign_inputs` preserves meaning: the new node on renamed arguments is the old node on the original
   * arguments and the bound values, whichever of the kept inputs are given and in whatever order.
   */
  lemma ReassignPreservesMeaning<T, V>(node: InputNode<T, V>, names: Dict<Name, Name>, values: Dict<Name, V>,
                                       d: Dict<Name, V>)
    requires DistinctKeys(node.inputs) && DistinctKeys(values) && DistinctKeys(d)
    requires KeysAmong(d, Keys(Kept(node.inputs, values)))
    requires ReadsBack(names, Keys(Kept(node.inputs, values)), Keys(values))
    ensures ReassignInputs(node, names, values).fn(RenameKeys(d, names)) == node.fn(d + values)
    ensures ReassignInputs(node, names, values).inputs == RenameKeys(Kept(node.inputs, values), names)
  {
    var kept := Kept(node.inputs, values);
    KeptInputs(node.inputs, values);
    assert KeysAmong(values, Keys(values)) by {
      forall i | 0 <= i < |values| ensures values[i].0 in Keys(values) { assert Keys(values)[i] == values[i].0; }
    }
    assert DistinctKeys(d + values) by {
      forall i, j | 0 <= i < |d| && 0 <= j < |values| ensures d[i].0 != values[j].0 {
        var k :| 0 <= k < |kept| && Keys(kept)[k] == d[i].0;
        assert !HasKey(values, kept[k].0);
      }
    }
    PassedBack(names, Keys(kept), Keys(values), d, values);
    hide Passed, Reverse;
    var renamed := RenameKeys(kept, names);
    forall i, j | 0 <= i < j < |renamed| ensures renamed[i].0 != renamed[j].0 {
      assert Keys(kept)[i] != Keys(kept)[j];
    }
    DictOfDistinct(renamed);
  }

  /** Exactly the inputs that are not bound are kept, in their order. */
  lemma {:induction false} KeptExactly<T, V>(a: Dict<Name, T>, b: Dict<Name, T>, values: Dict<Name, V>)
    ensures Kept(a + b, values) == Kept(a, values) + Kept(b, values)
    ensures forall p :: p in Kept(a, values) <==> p in a && !HasKey(values, p.0)
    decreases |a| + |b|
  {
    hide HasKey;
    if b != [] {
      var n := |b| - 1;
      KeptExactly(a, b[..n], values);
      assert (a + b)[..|a| + n] == a + b[..n] && (a + b)[|a| + n] == b[n];
    } else if a != [] {
      var n := |a| - 1;
      KeptExactly(a[..n], [], values);
      assert a + b == a;
      assert a == a[..n] + [a[n]];
    } else {
      assert a + b == a;
    }
  }

  ghost predicate NotBound<T, V>(inputs: Dict<Name, T>, values: Dict<Name, V>) {
    forall i :: 0 <= i < |inputs| ==> !HasKey(values, inputs[i].0)
  }

  ghost predicate Within<T>(kept: Dict<Name, T>, inputs: Dict<Name, T>) {
    forall i :: 0 <= i < |kept| ==> kept[i] in inputs
  }

  lemma {:induction false} KeptInputs<T, V>(inputs: Dict<Name, T>, values: Dict<Name, V>)
    requires DistinctKeys(inputs)
    ensures DistinctKeys(Kept(inputs, values)) && NotBound(Kept(inputs, values), values)
    ensures Within(Kept(inputs, values), inputs)
  {
    if inputs != [] {
      var n := |inputs| - 1;
      var kept := Kept(inputs[..n], values);
      KeptInputs(inputs[..n], values);
      assert Within(kept, inputs) by { WithinMore(kept, inputs); }
      hide HasKey;
      forall i | 0 <= i < |kept| ensures kept[i].0 != inputs[n].0 {
        var j :| 0 <= j < n && inputs[..n][j] == kept[i];
      }
    }
  }

  lemma WithinMore<T>(kept: Dict<Name, T>, inputs: Dict<Name, T>)
    requires inputs != [] && Within(kept, inputs[..|inputs| - 1])
    ensures Within(kept, inputs)
  {
    forall i | 0 <= i < |kept| ensures kept[i] in inputs {
      assert kept[i] in inputs[..|inputs| - 1];
    }
  }

  // ---------------------------------------------------------------- exactly when

  /** The callable gets the original arguments, whatever values are passed and bound. */
  ghost predicate Faithful<V(!new)>(names: Dict<Name, Name>, kept: seq<Name>, bound: seq<Name>) {
    forall d: Dict<Name, V>, values: Dict<Name, V> ::
      Keys(d) == kept && Keys(values) == bound ==>
        MapOf(Passed(names, values, RenameKeys(d, names))) == MapOf(d + values)
  }

  /** What arrives at a name came from an argument or a bound value whose name reads back as it. */
  lemma Provenance<V>(names: Dict<Name, Name>, values: Dict<Name, V>, kwargs: Dict<Name, V>, k: Name) returns (i: nat)
    requires k in MapOf(Passed(names, values, kwargs))
    ensures i < |kwargs + values|
    ensures Get(Reverse(names), (kwargs + values)[i].0) == k
    ensures (kwargs + values)[i].1 == MapOf(Passed(names, values, kwargs))[k]
  {
    hide Reverse, Get;
    var merged := DictOf(kwargs + values);
    var renamed := RenameKeys(merged, Reverse(names));
    var a := MapOfEntry(DictOf(renamed), k);
    DictOfEntries(renamed, a);
    var b :| 0 <= b < |renamed| && renamed[b] == DictOf(renamed)[a];
    DictOfEntries(kwargs + values, b);
    i :| 0 <= i < |kwargs + values| && (kwargs + values)[i] == merged[b];
  }

  /** x everywhere, y at one name. */
  function Marked<V>(names: seq<Name>, at: Name, x: V, y: V): (d: Dict<Name, V>)
    ensures Keys(d) == names && forall i :: 0 <= i < |d| ==> d[i] == (names[i], if names[i] == at then y else x)
  {
    seq(|names|, i requires 0 <= i < |names| => (names[i], if names[i] == at then y else x))
  }

  /** A mark at one name must arrive there, so the name is read back. */
  lemma MarkArrives<V(!new)>(names: Dict<Name, Name>, kept: seq<Name>, bound: seq<Name>, k: Name, x: V, y: V)
    requires Faithful<V>(names, kept, bound) && Distinct(kept + bound) && x != y && k in kept + bound
    ensures Get(Reverse(names), if k in kept then Get(names, k) else k) == k
  {
    hide Reverse, Get, Faithful, Passed;
    MarkIsPassed(names, kept, bound, k, x, y);
    hide MapOf;
    var d, values := Marked(kept, k, x, y), Marked(bound, k, x, y);
    var i := Provenance(names, values, RenameKeys(d, names), k);
    if i >= |d| {
      NotInFirst(kept, bound, i - |d|);
    }
  }

  lemma MarkIsPassed<V(!new)>(names: Dict<Name, Name>, kept: seq<Name>, bound: seq<Name>, k: Name, x: V, y: V)
    requires Faithful<V>(names, kept, bound) && Distinct(kept + bound) && k in kept + bound
    ensures var d, values := Marked(kept, k, x, y), Marked(bound, k, x, y);
            var m := MapOf(Passed(names, values, RenameKeys(d, names)));
            k in m && m[k] == y
  {
    var d, values := Marked(kept, k, x, y), Marked(bound, k, x, y);
    hide Passed, MapOf;
    TogetherDistinct(d, values);
    var a :| 0 <= a < |kept + bound| && (kept + bound)[a] == k;
    assert (d + values)[a] == (k, y);
    MapOfAt(d + values, a);
  }

  /** Exactly when reassigning inputs preserves meaning, for any two values to tell arguments apart. */
  lemma FaithfulIffReadsBack<V(!new)>(names: Dict<Name, Name>, kept: seq<Name>, bound: seq<Name>, x: V, y: V)
    requires Distinct(kept + bound) && x != y
    ensures Faithful<V>(names, kept, bound) <==> ReadsBack(names, kept, bound)
  {
    if Faithful<V>(names, kept, bound) {
      hide Faithful, Get, Reverse;
      forall i | 0 <= i < |kept| ensures Get(Reverse(names), Get(names, kept[i])) == kept[i] {
        assert (kept + bound)[i] == kept[i];
        MarkArrives(names, kept, bound, kept[i], x, y);
      }
      forall i | 0 <= i < |bound| ensures Get(Reverse(names), bound[i]) == bound[i] {
        assert (kept + bound)[|kept| + i] == bound[i];
        MarkArrives(names, kept, bound, bound[i], x, y);
        NotInFirst(kept, bound, i);
      }
    }
    if ReadsBack(names, kept, bound) {
      forall d: Dict<Name, V>, values: Dict<Name, V> | Keys(d) == kept && Keys(values) == bound
        ensures MapOf(Passed(names, values, RenameKeys(d, names))) == MapOf(d + values)
      {
        hide MapOf, Passed, ReadsBack;
        TogetherDistinct(d, values);
        assert KeysAmong(d, kept) && KeysAmong(values, bound) by { KeysAreAmong(d); KeysAreAmong(values); }
        PassedBack(names, kept, bound, d, values);
      }
    }
  }

  lemma TogetherDistinct<V>(d: Dict<Name, V>, values: Dict<Name, V>)
    requires Distinct(Keys(d) + Keys(values))
    ensures DistinctKeys(d + values)
  {
    var all: Dict<Name, V> := d + values;
    forall i, j | 0 <= i < j < |all| ensures all[i].0 != all[j].0 {
      assert (Keys(d) + Keys(values))[i] != (Keys(d) + Keys(values))[j];
    }
  }

  lemma KeysAreAmong<V>(d: Dict<Name, V>)
    ensures KeysAmong(d, Keys(d))
  {
    forall i | 0 <= i < |d| ensures d[i].0 in Keys(d) {
      assert Keys(d)[i] == d[i].0;
    }
  }

  lemma NotInFirst(a: seq<Name>, b: seq<Name>, i: nat)
    requires Distinct(a + b) && i < |b|
    ensures b[i] !in a
  {
    forall j | 0 <= j < |a| ensures a[j] != b[i] {
      assert (a + b)[j] != (a + b)[|a| + i];
    }
  }

  // ---------------------------------------------------------------- the usual renamings

  lemma {:induction false} GetAt(d: Dict<Name, Name>, i: nat)
    requires DistinctKeys(d) && i < |d|
    ensures Get(d, d[i].0) == d[i].1
  {
    if i > 0 {
      assert d[0].0 != d[i].0;
      GetAt(d[1..], i - 1);
    }
  }

  lemma {:induction false} GetMissing(d: Dict<Name, Name>, k: Name)
    requires forall i :: 0 <= i < |d| ==> d[i].0 != k
    ensures Get(d, k) == k
  {
    if d != [] {
      GetMissing(d[1..], k);
    }
  }

  /**
   * An injective renaming of kept inputs whose targets avoid the other kept inputs and the bound names is
   * read back.
   */
  lemma InjectiveReadsBack(names: Dict<Name, Name>, kept: seq<Name>, bound: seq<Name>)
    requires DistinctKeys(names) && KeysAmong(names, kept)
    requires forall i, j :: 0 <= i < j < |names| ==> names[i].1 != names[j].1
    requires forall i :: 0 <= i < |names| ==> names[i].1 !in bound && (names[i].1 in kept ==> HasKey(names, names[i].1))
    ensures ReadsBack(names, kept, bound)
  {
    var swapped := seq(|names|, i requires 0 <= i < |names| => (names[i].1, names[i].0));
    DictOfDistinct(swapped);
    assert Reverse(names) == swapped;
    forall i | 0 <= i < |kept| ensures Get(swapped, Get(names, kept[i])) == kept[i] {
      if j :| 0 <= j < |names| && names[j].0 == kept[i] {
        GetAt(names, j);
        assert swapped[j].0 == names[j].1;
        GetAt(swapped, j);
      } else {
        GetMissing(names, kept[i]);
        GetMissing(swapped, kept[i]);
      }
    }
    forall i | 0 <= i < |bound| ensures Get(swapped, bound[i]) == bound[i] {
      GetMissing(swapped, bound[i]);
    }
  }

  /** A target that is a bound name breaks it: the bound value is what arrives at the renamed input. */
  lemma TargetsMustAvoidBoundNames<V>(a: Name, b: Name, x: V, y: V)
    requires a != b
    ensures Passed([(a, b)], [(b, y)], RenameKeys([(a, x)], [(a, b)])) == [(a, y)]
  {
    assert RenameKeys([(a, x)], [(a, b)]) == [(b, x)];
    assert DictOf([(b, x)] + [(b, y)]) == [(b, y)] by {
      assert ([(b, x)] + [(b, y)])[..1] == [(b, x)];
      DictOfDistinct([(b, x)]);
    }
    assert seq(1, i requires 0 <= i < 1 => ([(a, b)][i].1, [(a, b)][i].0)) == [(b, a)];
    DictOfDistinct([(b, a)]);
    assert RenameKeys([(b, y)], [(b, a)]) == [(a, y)];
    DictOfDistinct([(a, y)]);
  }

  // ---------------------------------------------------------------- composition

  /**
   * Successive renamings compose: the twice reassigned node on twice renamed arguments is the original node
   * on the original arguments, the values bound second under their original names, and those bound first.
   */
  lemma ReassignmentsCompose<T, V>(node: InputNode<T, V>, names: Dict<Name, Name>, values: Dict<Name, V>,
                                   names': Dict<Name, Name>, values': Dict<Name, V>, pulled: Dict<Name, V>,
                                   d: Dict<Name, V>)
    requires DistinctKeys(node.inputs) && DistinctKeys(values) && DistinctKeys(d + pulled)
    requires ReadsBack(names, Keys(Kept(node.inputs, values)), Keys(values))
    requires KeysAmong(d + pulled, Keys(Kept(node.inputs, values))) && values' == RenameKeys(pulled, names)
    requires var once := ReassignInputs(node, names, values);
             && ReadsBack(names', Keys(Kept(once.inputs, values')), Keys(values'))
             && KeysAmong(RenameKeys(d, names), Keys(Kept(once.inputs, values')))
    ensures var twice := ReassignInputs(ReassignInputs(node, names, values), names', values');
            twice.fn(RenameKeys(RenameKeys(d, names), names')) == node.fn(d + pulled + values)
  {
    var once := ReassignInputs(node, names, values);
    ReassignPreservesMeaning(node, names, values, d + pulled);
    assert RenameKeys(d + pulled, names) == RenameKeys(d, names) + values';
    RenamedDistinct(names, Keys(Kept(node.inputs, values)), Keys(values), d + pulled);
    KeptInputs(node.inputs, values);
    KeysAreAmong(Kept(node.inputs, values));
    RenamedDistinct(names, Keys(Kept(node.inputs, values)), Keys(values), Kept(node.inputs, values));
    PartsDistinct(RenameKeys(d, names), values');
    hide Passed, ReadsBack, Reverse;
    ReassignPreservesMeaning(once, names', values', RenameKeys(d, names));
  }

  lemma PartsDistinct<V>(a: Dict<Name, V>, b: Dict<Name, V>)
    requires DistinctKeys(a + b)
    ensures DistinctKeys(a) && DistinctKeys(b)
  {
    forall i, j | 0 <= i < j < |b| ensures b[i].0 != b[j].0 {
      assert (a + b)[|a| + i].0 != (a + b)[|a| + j].0;
    }
    forall i, j | 0 <= i < j < |a| ensures a[i].0 != a[j].0 {
      assert (a + b)[i].0 != (a + b)[j].0;
    }
  }

  lemma RenamedDistinct<V>(names: Dict<Name, Name>, kept: seq<Name>, bound: seq<Name>, d: Dict<Name, V>)
    requires ReadsBack(names, kept, bound) && DistinctKeys(d) && KeysAmong(d, kept)
    ensures DistinctKeys(RenameKeys(d, names))
  {
    hide Reverse;
    forall i | 0 <= i < |d| ensures Get(Reverse(names), Get(names, d[i].0)) == d[i].0 {
      var j :| 0 <= j < |kept| && kept[j] == d[i].0;
    }
  }

  // ---------------------------------------------------------------- two reassignments as one

  /** Where each of these inputs ends up under two renamings. */
  function Composed(names: Dict<Name, Name>, names': Dict<Name, Name>, kept: seq<Name>): (r: Dict<Name, Name>)
    ensures |r| == |kept| && forall i :: 0 <= i < |kept| ==> r[i] == (kept[i], Get(names', Get(names, kept[i])))
  {
    seq(|kept|, i requires 0 <= i < |kept| => (kept[i], Get(names', Get(names, kept[i]))))
  }

  lemma RenamedByBoth<V>(names: Dict<Name, Name>, names': Dict<Name, Name>, kept: seq<Name>, d: Dict<Name, V>)
    requires Distinct(kept) && KeysAmong(d, kept)
    ensures RenameKeys(d, Composed(names, names', kept)) == RenameKeys(RenameKeys(d, names), names')
  {
    var both := Composed(names, names', kept);
    hide Get;
    forall i | 0 <= i < |d| ensures Get(both, d[i].0) == Get(names', Get(names, d[i].0)) {
      var j :| 0 <= j < |kept| && kept[j] == d[i].0;
      GetAt(both, j);
    }
  }

  lemma {:induction false} KeptTwice<T, V>(inputs: Dict<Name, T>, values: Dict<Name, V>, pulled: Dict<Name, V>)
    ensures Kept(Kept(inputs, values), pulled) == Kept(inputs, pulled + values)
  {
    if inputs != [] {
      var n := |inputs| - 1;
      KeptTwice(inputs[..n], values, pulled);
      HasKeyEither(pulled, values, inputs[n].0);
      hide HasKey;
      var first := Kept(inputs[..n], values);
      if !HasKey(values, inputs[n].0) {
        assert (first + [inputs[n]])[..|first|] == first;
      } else {
        assert first + [] == first;
      }
    }
  }

  lemma HasKeyEither<V>(a: Dict<Name, V>, b: Dict<Name, V>, k: Name)
    ensures HasKey(a + b, k) <==> HasKey(a, k) || HasKey(b, k)
  {
    if i :| 0 <= i < |a| && a[i].0 == k {
      assert (a + b)[i].0 == k;
    }
    if i :| 0 <= i < |b| && b[i].0 == k {
      assert (a + b)[|a| + i].0 == k;
    }
  }

  /** An injective renaming commutes with dropping bound inputs. */
  lemma {:induction false} KeptRenamed<T, V>(inputs: Dict<Name, T>, pulled: Dict<Name, V>, names: Dict<Name, Name>)
    requires forall i, j :: (0 <= i < |inputs| && 0 <= j < |pulled|
                             && Get(names, inputs[i].0) == Get(names, pulled[j].0)) ==>
               inputs[i].0 == pulled[j].0
    ensures Kept(RenameKeys(inputs, names), RenameKeys(pulled, names)) == RenameKeys(Kept(inputs, pulled), names)
  {
    hide Get;
    if inputs != [] {
      var n := |inputs| - 1;
      KeptRenamed(inputs[..n], pulled, names);
      assert RenameKeys(inputs, names)[..n] == RenameKeys(inputs[..n], names);
      var k := inputs[n].0;
      if j :| 0 <= j < |pulled| && pulled[j].0 == k {
        assert RenameKeys(pulled, names)[j].0 == Get(names, k);
      }
      assert HasKey(RenameKeys(pulled, names), Get(names, k)) <==> HasKey(pulled, k);
    }
  }

  lemma ReadBackApart(names: Dict<Name, Name>, kept: seq<Name>, bound: seq<Name>, a: Name, b: Name)
    requires ReadsBack(names, kept, bound) && a in kept && b in kept
    ensures Get(names, a) == Get(names, b) ==> a == b
  {
    hide Get, Reverse;
    var i :| 0 <= i < |kept| && kept[i] == a;
    var j :| 0 <= j < |kept| && kept[j] == b;
  }

  /** The composed renaming is read back exactly when no input ends up under a name that is bound. */
  lemma ComposedReadsBack(names: Dict<Name, Name>, names': Dict<Name, Name>, kept: seq<Name>, bound: seq<Name>)
    requires Distinct(kept + bound)
    requires forall i, j :: 0 <= i < j < |kept| ==> Get(names', Get(names, kept[i])) != Get(names', Get(names, kept[j]))
    ensures ReadsBack(Composed(names, names', kept), kept, bound)
       <==> forall i :: 0 <= i < |kept| ==> Get(names', Get(names, kept[i])) !in bound
  {
    var both := Composed(names, names', kept);
    FirstDistinct(kept, bound);
    var avoids := forall i :: 0 <= i < |kept| ==> Get(names', Get(names, kept[i])) !in bound;
    if avoids {
      hide Get;
      assert KeysAmong(both, kept) by {
        forall i | 0 <= i < |both| ensures both[i].0 in kept { assert kept[i] == both[i].0; }
      }
      forall i | 0 <= i < |both| && both[i].1 in kept ensures HasKey(both, both[i].1) {
        var j :| 0 <= j < |kept| && kept[j] == both[i].1;
        assert both[j].0 == both[i].1;
      }
      InjectiveReadsBack(both, kept, bound);
    }
    if ReadsBack(both, kept, bound) {
      forall i | 0 <= i < |kept| ensures Get(names', Get(names, kept[i])) !in bound {
        TargetNotBound(both, kept, bound, i);
      }
    }
  }

  lemma FirstDistinct(a: seq<Name>, b: seq<Name>)
    requires Distinct(a + b)
    ensures Distinct(a)
  {
    forall i, j | 0 <= i < j < |a| ensures a[i] != a[j] {
      assert (a + b)[i] != (a + b)[j];
    }
  }

  lemma TargetNotBound(names: Dict<Name, Name>, kept: seq<Name>, bound: seq<Name>, i: nat)
    requires ReadsBack(names, kept, bound) && Distinct(kept + bound) && DistinctKeys(names)
    requires i < |kept| && i < |names| && names[i].0 == kept[i]
    ensures names[i].1 !in bound
  {
    GetAt(names, i);
    hide Get, Reverse;
    forall j | 0 <= j < |bound| ensures bound[j] != names[i].1 {
      assert (kept + bound)[i] != (kept + bound)[|kept| + j];
    }
  }

  /**
   * Reassigning twice is reassigning once: by the composed renaming, with both sets of values bound, if no input
   * ends up under a name that is bound. Inputs and results are the same.
   */
  lemma {:induction false} TwiceIsOnce<T, V>(node: InputNode<T, V>, names: Dict<Name, Name>, values: Dict<Name, V>,
                                             names': Dict<Name, Name>, values': Dict<Name, V>, pulled: Dict<Name, V>,
                                             d: Dict<Name, V>)
    requires DistinctKeys(node.inputs) && DistinctKeys(pulled + values) && DistinctKeys(d)
    requires KeysAmong(pulled, Keys(Kept(node.inputs, values))) && values' == RenameKeys(pulled, names)
    requires KeysAmong(d, Keys(Kept(node.inputs, pulled + values)))
    requires ReadsBack(names, Keys(Kept(node.inputs, values)), Keys(values))
    requires var once := ReassignInputs(node, names, values);
             ReadsBack(names', Keys(Kept(once.inputs, values')), Keys(values'))
    requires var kept := Keys(Kept(node.inputs, pulled + values));
             forall i :: 0 <= i < |kept| ==> Get(names', Get(names, kept[i])) !in Keys(pulled + values)
    ensures var both := Composed(names, names', Keys(Kept(node.inputs, pulled + values)));
            var twice := ReassignInputs(ReassignInputs(node, names, values), names', values');
            var once := ReassignInputs(node, both, pulled + values);
            && twice.inputs == once.inputs
            && twice.fn(RenameKeys(d, both)) == once.fn(RenameKeys(d, both))
  {
    hide Get, Reverse, Passed, Kept, ReassignInputs, ReadsBack, HasKey;
    var first, kept := Kept(node.inputs, values), Kept(node.inputs, pulled + values);
    var both := Composed(names, names', Keys(kept));
    PartsDistinct(pulled, values);
    KeptInputs(node.inputs, pulled + values);
    KeysAreAmong(kept);
    SecondKept(node, names, values, pulled);
    ComposedIsReadBack(node, names, values, names', values', pulled);
    RenamedByBoth(names, names', Keys(kept), d);
    RenamedByBoth(names, names', Keys(kept), kept);
    ReassignPreservesMeaning(node, both, pulled + values, d);
    BothAmong(node, values, pulled, d);
    RenamedAmong(d, kept, names);
    ReassignmentsCompose(node, names, values, names', values', pulled, d);
    SecondInputs(node, names, values, names', values', pulled);
    assert d + (pulled + values) == d + pulled + values;
  }

  lemma RenamedAmong<T, V>(d: Dict<Name, V>, kept: Dict<Name, T>, names: Dict<Name, Name>)
    requires KeysAmong(d, Keys(kept))
    ensures KeysAmong(RenameKeys(d, names), Keys(RenameKeys(kept, names)))
  {
    hide Get;
    forall i | 0 <= i < |d| ensures Get(names, d[i].0) in Keys(RenameKeys(kept, names)) {
      var j :| 0 <= j < |kept| && Keys(kept)[j] == d[i].0;
      assert Keys(RenameKeys(kept, names))[j] == Get(names, d[i].0);
    }
  }

  /** What the second reassignment keeps. */
  lemma SecondKept<T, V>(node: InputNode<T, V>, names: Dict<Name, Name>, values: Dict<Name, V>, pulled: Dict<Name, V>)
    requires DistinctKeys(node.inputs) && DistinctKeys(values)
    requires KeysAmong(pulled, Keys(Kept(node.inputs, values)))
    requires ReadsBack(names, Keys(Kept(node.inputs, values)), Keys(values))
    ensures Kept(ReassignInputs(node, names, values).inputs, RenameKeys(pulled, names))
         == RenameKeys(Kept(node.inputs, pulled + values), names)
  {
    hide Get, Reverse, Passed, Kept, ReadsBack, HasKey;
    var first := Kept(node.inputs, values);
    FirstInputs(node, names, values);
    forall i, j | 0 <= i < |first| && 0 <= j < |pulled| && Get(names, first[i].0) == Get(names, pulled[j].0)
      ensures first[i].0 == pulled[j].0
    {
      assert Keys(first)[i] == first[i].0;
      ReadBackApart(names, Keys(first), Keys(values), first[i].0, pulled[j].0);
    }
    KeptRenamed(first, pulled, names);
    KeptTwice(node.inputs, values, pulled);
  }

  lemma FirstInputs<T, V>(node: InputNode<T, V>, names: Dict<Name, Name>, values: Dict<Name, V>)
    requires DistinctKeys(node.inputs) && DistinctKeys(values)
    requires ReadsBack(names, Keys(Kept(node.inputs, values)), Keys(values))
    ensures ReassignInputs(node, names, values).inputs == RenameKeys(Kept(node.inputs, values), names)
    ensures DistinctKeys(ReassignInputs(node, names, values).inputs)
  {
    KeptInputs(node.inputs, values);
    KeysAreAmong(Kept(node.inputs, values));
    RenamedDistinct(names, Keys(Kept(node.inputs, values)), Keys(values), Kept(node.inputs, values));
    ReassignPreservesMeaning(node, names, values, []);
  }

  lemma SecondInputs<T, V>(node: InputNode<T, V>, names: Dict<Name, Name>, values: Dict<Name, V>,
                           names': Dict<Name, Name>, values': Dict<Name, V>, pulled: Dict<Name, V>)
    requires DistinctKeys(node.inputs) && DistinctKeys(pulled + values)
    requires KeysAmong(pulled, Keys(Kept(node.inputs, values))) && values' == RenameKeys(pulled, names)
    requires ReadsBack(names, Keys(Kept(node.inputs, values)), Keys(values))
    requires ReadsBack(names', Keys(Kept(ReassignInputs(node, names, values).inputs, values')), Keys(values'))
    ensures ReassignInputs(ReassignInputs(node, names, values), names', values').inputs
         == RenameKeys(RenameKeys(Kept(node.inputs, pulled + values), names), names')
  {
    hide Get, Reverse, Passed, Kept, ReassignInputs, ReadsBack, HasKey;
    PartsDistinct(pulled, values);
    SecondKept(node, names, values, pulled);
    FirstInputs(node, names, values);
    RenamedDistinct(names, Keys(Kept(node.inputs, values)), Keys(values), pulled);
    FirstInputs(ReassignInputs(node, names, values), names', values');
  }

  lemma BothAmong<T, V>(node: InputNode<T, V>, values: Dict<Name, V>, pulled: Dict<Name, V>, d: Dict<Name, V>)
    requires DistinctKeys(node.inputs) && DistinctKeys(pulled + values) && DistinctKeys(d)
    requires KeysAmong(pulled, Keys(Kept(node.inputs, values)))
    requires KeysAmong(d, Keys(Kept(node.inputs, pulled + values)))
    ensures DistinctKeys(d + pulled) && KeysAmong(d + pulled, Keys(Kept(node.inputs, values)))
  {
    hide HasKey, Kept;
    var first, kept := Kept(node.inputs, values), Kept(node.inputs, pulled + values);
    PartsDistinct(pulled, values);
    KeptInputs(node.inputs, values);
    KeptTwice(node.inputs, values, pulled);
    KeptInputs(first, pulled);
    forall i | 0 <= i < |d| ensures d[i].0 in Keys(first) && !HasKey(pulled, d[i].0) {
      var j :| 0 <= j < |kept| && Keys(kept)[j] == d[i].0;
      var k :| 0 <= k < |first| && first[k] == kept[j];
      assert Keys(first)[k] == d[i].0;
    }
    forall i, j | 0 <= i < |d| && 0 <= j < |pulled| ensures d[i].0 != pulled[j].0 {
      HasKeyAt(pulled, j);
    }
  }

  lemma HasKeyAt<V>(d: Dict<Name, V>, i: nat)
    requires i < |d|
    ensures HasKey(d, d[i].0)
  {}

  lemma ComposedIsReadBack<T, V>(node: InputNode<T, V>, names: Dict<Name, Name>, values: Dict<Name, V>,
                                 names': Dict<Name, Name>, values': Dict<Name, V>, pulled: Dict<Name, V>)
    requires DistinctKeys(node.inputs) && DistinctKeys(pulled + values)
    requires KeysAmong(pulled, Keys(Kept(node.inputs, values))) && values' == RenameKeys(pulled, names)
    requires ReadsBack(names, Keys(Kept(node.inputs, values)), Keys(values))
    requires ReadsBack(names', Keys(Kept(ReassignInputs(node, names, values).inputs, values')), Keys(values'))
    ensures var kept, bound := Keys(Kept(node.inputs, pulled + values)), Keys(pulled + values);
            ReadsBack(Composed(names, names', kept), kept, bound)
            <==> forall i :: 0 <= i < |kept| ==> Get(names', Get(names, kept[i])) !in bound
  {
    hide Get, Reverse, Passed, ReassignInputs, ReadsBack, HasKey, Kept;
    var first, kept := Kept(node.inputs, values), Kept(node.inputs, pulled + values);
    PartsDistinct(pulled, values);
    SecondKept(node, names, values, pulled);
    KeptInputs(node.inputs, pulled + values);
    KeptAndBoundDistinct(kept, pulled + values);
    KeysAreAmong(kept);
    BothAmong(node, values, pulled, []);
    EndsApart(node, names, values, names', values', pulled);
    ComposedReadsBack(names, names', Keys(kept), Keys(pulled + values));
  }

  lemma KeptAndBoundDistinct<T, V>(kept: Dict<Name, T>, bound: Dict<Name, V>)
    requires DistinctKeys(kept) && DistinctKeys(bound) && NotBound(kept, bound)
    ensures Distinct(Keys(kept) + Keys(bound))
  {
    hide HasKey;
    forall i, j | 0 <= i < |kept| && 0 <= j < |bound| ensures kept[i].0 != bound[j].0 {
      HasKeyAt(bound, j);
    }
  }

  /** Two inputs that are kept end up under two names. */
  lemma EndsApart<T, V>(node: InputNode<T, V>, names: Dict<Name, Name>, values: Dict<Name, V>,
                        names': Dict<Name, Name>, values': Dict<Name, V>, pulled: Dict<Name, V>)
    requires DistinctKeys(node.inputs) && DistinctKeys(pulled + values)
    requires KeysAmong(pulled, Keys(Kept(node.inputs, values))) && values' == RenameKeys(pulled, names)
    requires ReadsBack(names, Keys(Kept(node.inputs, values)), Keys(values))
    requires ReadsBack(names', Keys(Kept(ReassignInputs(node, names, values).inputs, values')), Keys(values'))
    ensures var kept := Keys(Kept(node.inputs, pulled + values));
            forall i, j :: 0 <= i < j < |kept| ==> Get(names', Get(names, kept[i])) != Get(names', Get(names, kept[j]))
  {
    hide Get, Reverse, Passed, ReassignInputs, ReadsBack, HasKey, Kept;
    PartsDistinct(pulled, values);
    var first, kept := Kept(node.inputs, values), Kept(node.inputs, pulled + values);
    SecondKept(node, names, values, pulled);
    KeptInputs(node.inputs, pulled + values);
    KeptTwice(node.inputs, values, pulled);
    KeptInputs(node.inputs, values);
    KeptInputs(first, pulled);
    var renamed := RenameKeys(kept, names);
    forall i, j | 0 <= i < j < |kept| ensures Get(names', Get(names, kept[i].0)) != Get(names', Get(names, kept[j].0)) {
      var a :| 0 <= a < |first| && first[a] == kept[i];
      var b :| 0 <= b < |first| && first[b] == kept[j];
      assert Keys(first)[a] == kept[i].0 && Keys(first)[b] == kept[j].0;
      ReadBackApart(names, Keys(first), Keys(values), kept[i].0, kept[j].0);
      assert Keys(renamed)[i] == Get(names, kept[i].0) && Keys(renamed)[j] == Get(names, kept[j].0);
      ReadBackApart(names', Keys(renamed), Keys(values'), Get(names, kept[i].0), Get(names, kept[j].0));
    }
  }

  // ---------------------------------------------------------------- default values under old names

  lemma {:induction false} MapOfConcat<K, V>(a: Dict<K, V>, b: Dict<K, V>)
    ensures MapOf(a + b) == MapOf(a) + MapOf(b)
  {
    if b == [] {
      assert a + b == a;
    } else {
      var n := |b| - 1;
      MapOfConcat(a, b[..n]);
      assert (a + b)[..|a + b| - 1] == a + b[..n] && (a + b)[|a + b| - 1] == b[n];
    }
  }

  /**
   * The reassigned node keeps its default values under the old names. If one is passed along, as the cache does
   * for every parameter that is not among the arguments, it takes the place of the argument given under the new
   * name: the original callable gets what it should exactly if that argument equals the default.
   */
  lemma StrayDefaultWins<V>(names: Dict<Name, Name>, kept: seq<Name>, values: Dict<Name, V>, d: Dict<Name, V>,
                            k: Name, default: V)
    requires ReadsBack(names, kept, Keys(values)) && DistinctKeys(d + values) && KeysAmong(d, kept) && HasKey(d, k)
    requires !HasKey(RenameKeys(d, names), k) && !HasKey(values, k) && Get(Reverse(names), k) == k
    ensures var passed := MapOf(Passed(names, values, RenameKeys(d, names) + [(k, default)]));
            && k in passed && passed[k] == default && k in MapOf(d + values)
            && (passed == MapOf(d + values) <==> MapOf(d + values)[k] == default)
  {
    var stray: Dict<Name, V> := [(k, default)];
    var renamed := RenameKeys(d, names);
    var all := renamed + stray + values;
    hide Get, Reverse, MapOf, HasKey;
    RenamedDistinct(names, kept, Keys(values), d) by { PartsDistinct(d, values); }
    WithStrayDistinct(names, kept, values, d, k, default);
    DictOfDistinct(all);
    BackToOriginals(names, kept, values, d, k, default);
    var pairs := d + stray + values;
    DictOfMaps(pairs);
    assert MapOf(Passed(names, values, renamed + stray)) == MapOf(pairs);
    MapOfConcat(d + stray, values);
    MapOfConcat(d, stray);
    MapOfConcat(d, values);
    StrayMap(d, values, k, default);
  }

  lemma StrayMap<V>(d: Dict<Name, V>, values: Dict<Name, V>, k: Name, default: V)
    requires HasKey(d, k) && !HasKey(values, k)
    ensures var stray: Dict<Name, V> := [(k, default)];
            && MapOf(d) + MapOf(stray) + MapOf(values) == (MapOf(d) + MapOf(values))[k := default]
            && k in MapOf(d) + MapOf(values)
  {
    MapOfKeys(d);
    MapOfKeys(values);
    assert ([(k, default)])[..0] == [];
    var stray: Dict<Name, V> := [(k, default)];
    assert MapOf(stray) == map[k := default];
    hide MapOf;
  }

  lemma BackToOriginals<V>(names: Dict<Name, Name>, kept: seq<Name>, values: Dict<Name, V>, d: Dict<Name, V>,
                           k: Name, default: V)
    requires ReadsBack(names, kept, Keys(values)) && KeysAmong(d, kept) && Get(Reverse(names), k) == k
    ensures RenameKeys(RenameKeys(d, names) + [(k, default)] + values, Reverse(names)) == d + [(k, default)] + values
  {
    var stray: Dict<Name, V> := [(k, default)];
    var all, back := RenameKeys(d, names) + stray + values, Reverse(names);
    hide Get, Reverse;
    forall i | 0 <= i < |d| ensures Get(back, all[i].0) == d[i].0 {
      assert d[i].0 in kept && all[i] == RenameKeys(d, names)[i];
      var j :| 0 <= j < |kept| && kept[j] == d[i].0;
    }
    forall i | 0 <= i < |values| ensures Get(back, values[i].0) == values[i].0 {
      assert Keys(values)[i] == values[i].0;
    }
    forall i | 0 <= i < |all| ensures RenameKeys(all, back)[i] == (d + stray + values)[i] {
      if i > |d| {
        assert all[i] == values[i - |d| - 1];
      }
    }
  }

  lemma WithStrayDistinct<V>(names: Dict<Name, Name>, kept: seq<Name>, values: Dict<Name, V>, d: Dict<Name, V>,
                             k: Name, default: V)
    requires ReadsBack(names, kept, Keys(values)) && DistinctKeys(d + values) && KeysAmong(d, kept)
    requires DistinctKeys(RenameKeys(d, names)) && !HasKey(RenameKeys(d, names), k) && !HasKey(values, k)
    ensures DistinctKeys(RenameKeys(d, names) + [(k, default)] + values)
  {
    var renamed := RenameKeys(d, names);
    PartsDistinct(d, values);
    hide Get, Reverse;
    forall i, j | 0 <= i < |d| && 0 <= j < |values| ensures renamed[i].0 != values[j].0 {
      var a :| 0 <= a < |kept| && kept[a] == d[i].0;
      assert Keys(values)[j] == values[j].0;
      assert (d + values)[i].0 != (d + values)[|d| + j].0;
    }
  }
}
