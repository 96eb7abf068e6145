/**
 * How the vmap-based stand-in for pmap turns `in_axes` and `static_broadcasted_argnums`
 * into the `in_axes` it hands to vmap: statics are normalised once, when the stand-in
 * is built, and on every call the positional arguments' pytrees decide the per-argument
 * axes, with each static argument mapped over no axis at all.
 */
module PmapInAxes {
  import opened Results

  /** The structure of one positional argument as a pytree; the leaf values do not matter. */
  datatype Tree = Leaf | Node(children: seq<Tree>)

  /** A pytree of axis specifications: a leaf is an axis index or `None`. */
  datatype AxisTree = AxisLeaf(axis: Option<int>) | AxisNode(children: seq<AxisTree>)

  /** The forms of `in_axes` the code tells apart. */
  datatype InAxes =
    | IntAxes(axis: int)                     // an int: the same axis for every leaf
    | NoneAxes                               // `None`, which `list(...)` cannot iterate
    | SeqAxes(entries: seq<AxisTree>)        // a tuple or list, one entry per argument
    | DictAxes(byName: map<string, AxisTree>)

  /** `static_broadcasted_argnums`: a single int or an iterable of ints. */
  datatype StaticArgnums = SingleArgnum(argnum: int) | Argnums(argnums: seq<int>)

  /** The NotImplementedError raised when the stand-in is built. */
  datatype PmapError = DictInAxesWithStatics

  /** The exceptions raised while computing the axes of one call. */
  datatype CallError =
    | NotIterable        // `list(in_axes)` when `in_axes` is None
    | IndexOutOfRange    // a static argnum outside the arguments or the axes list

  /** What the stand-in keeps from its construction for every call. */
  datatype PmapConfig = PmapConfig(inAxes: InAxes, statics: seq<int>)

  /** The configurations construction lets through. */
  predicate ValidConfig(c: PmapConfig)
  {
    c.statics == [] || !c.inAxes.DictAxes?
  }

  /** The checks `_fake_pmap` makes before it builds the wrapped function. */
  function FakePmap(inAxes: InAxes, statics: StaticArgnums): (r: Result<PmapConfig, PmapError>)
    ensures statics.SingleArgnum? ==> (r.Ok? <==> !inAxes.DictAxes?)
    ensures statics.Argnums? ==> (r.Ok? <==> statics.argnums == [] || !inAxes.DictAxes?)
    ensures r.Ok? ==> ValidConfig(r.value) && r.value.inAxes == inAxes
    ensures r.Ok? && statics.SingleArgnum? ==> r.value.statics == [statics.argnum]
    ensures r.Ok? && statics.Argnums? ==> r.value.statics == statics.argnums
  {
    var normalised := match statics
      case SingleArgnum(a) => [a]
      case Argnums(ns) => ns;
    if normalised != [] && inAxes.DictAxes? then Err(DictInAxesWithStatics)
    else Ok(PmapConfig(inAxes, normalised))
  }

  /** `jax.tree_map(lambda _: v, t)`: the tree of `t`'s shape with every leaf `v`. */
  function Fill(t: Tree, v: Option<int>): (r: AxisTree)
    ensures r.AxisLeaf? <==> t.Leaf?
    ensures r.AxisNode? ==> |r.children| == |t.children|
    decreases t
  {
    match t
    case Leaf => AxisLeaf(v)
    case Node(cs) => AxisNode(seq(|cs|, k requires 0 <= k < |cs| => Fill(cs[k], v)))
  }

  /** The shape of an axis tree. */
  function Shape(a: AxisTree): Tree
    decreases a
  {
    match a
    case AxisLeaf(_) => Leaf
    case AxisNode(cs) => Node(seq(|cs|, k requires 0 <= k < |cs| => Shape(cs[k])))
  }

  /** Every leaf of `a` is `v`. */
  predicate AllLeaves(a: AxisTree, v: Option<int>)
    decreases a
  {
    match a
    case AxisLeaf(x) => x == v
    case AxisNode(cs) => forall k :: 0 <= k < |cs| ==> AllLeaves(cs[k], v)
  }

  /** Filling keeps the shape and sets every leaf. */
  lemma {:induction false} FillKeepsShape(t: Tree, v: Option<int>)
    ensures Shape(Fill(t, v)) == t && AllLeaves(Fill(t, v), v)
    decreases t
  {
    match t
    case Leaf =>
    case Node(cs) =>
      var f := Fill(t, v).children;
      forall k | 0 <= k < |cs| ensures Shape(f[k]) == cs[k] && AllLeaves(f[k], v) {
        FillKeepsShape(cs[k], v);
      }
      assert Shape(Fill(t, v)).children == cs;
  }

  /** The filled tree is the only tree of that shape whose leaves are all `v`. */
  lemma {:induction false} FillUnique(a: AxisTree, v: Option<int>)
    requires AllLeaves(a, v)
    ensures a == Fill(Shape(a), v)
    decreases a
  {
    match a
    case AxisLeaf(_) =>
    case AxisNode(cs) =>
      var f := Fill(Shape(a), v).children;
      forall k | 0 <= k < |cs| ensures f[k] == cs[k] {
        FillUnique(cs[k], v);
      }
  }

  /** Python accepts `i` as an index into a list of length `len`. */
  predicate InBounds(i: int, len: int)
  {
    -len <= i < len
  }

  /** Python's `xs[i]` on a list of length `len`: negative indices count from the end. */
  function PyIndex(i: int, len: nat): (r: Option<nat>)
    ensures r.Some? <==> InBounds(i, len)
    ensures r.Some? ==> r.value < len && r.value % len == i % len
  {
    if 0 <= i < len then Some(i)
    else if 0 <= i + len && i < 0 then Some(i + len)
    else None
  }

  /** `list(vmap_in_axes)` before any static entry is overwritten. */
  function BaseAxes(inAxes: InAxes, callArgs: seq<Tree>): (r: Result<seq<AxisTree>, CallError>)
    requires !inAxes.DictAxes?
    ensures r.Ok? <==> !inAxes.NoneAxes?
    ensures r.Err? ==> r.error == NotIterable
    ensures r.Ok? ==> |r.value| == AxesCount(inAxes, callArgs)
    ensures r.Ok? && inAxes.IntAxes? ==>
              forall k :: 0 <= k < |callArgs| ==> r.value[k] == Fill(callArgs[k], Some(inAxes.axis))
    ensures r.Ok? && inAxes.SeqAxes? ==> r.value == inAxes.entries
  {
    match inAxes
    case IntAxes(a) => Ok(seq(|callArgs|, k requires 0 <= k < |callArgs| => Fill(callArgs[k], Some(a))))
    case SeqAxes(es) => Ok(es)
    case NoneAxes => Err(NotIterable)
  }

  /** The axes list after the loop has overwritten the entries of `statics`, in order. */
  function ApplyStatics(base: seq<AxisTree>, statics: seq<int>, callArgs: seq<Tree>)
    : (r: Result<seq<AxisTree>, CallError>)
    ensures r.Ok? ==> |r.value| == |base|
    ensures r.Ok? <==> forall j :: 0 <= j < |statics| ==>
                         InBounds(statics[j], |callArgs|) && InBounds(statics[j], |base|)
    ensures r.Err? ==> r.error == IndexOutOfRange
    decreases |statics|
  {
    if statics == [] then Ok(base)
    else
      var init := statics[..|statics| - 1];
      var a := statics[|statics| - 1];
      match ApplyStatics(base, init, callArgs)
      case Err(e) => Err(e)
      case Ok(axes) =>
        var c := PyIndex(a, |callArgs|);
        var v := PyIndex(a, |axes|);
        if c.Some? && v.Some? then Ok(axes[v.value := Fill(callArgs[c.value], None)])
        else Err(IndexOutOfRange)
  }

  /** Whether some argnum in `statics` designates entry `k` of a list of length `len`. */
  predicate Targets(statics: seq<int>, len: nat, k: nat)
  {
    exists j :: 0 <= j < |statics| && PyIndex(statics[j], len) == Some(k)
  }

  /** An entry no static argnum designates keeps its value. */
  lemma {:induction false} ApplyStaticsKeeps(base: seq<AxisTree>, statics: seq<int>, callArgs: seq<Tree>, k: nat)
    requires ApplyStatics(base, statics, callArgs).Ok? && k < |base|
    requires !Targets(statics, |base|, k)
    ensures ApplyStatics(base, statics, callArgs).value[k] == base[k]
    decreases |statics|
  {
    if statics != [] {
      var init := statics[..|statics| - 1];
      assert !Targets(init, |base|, k) by {
        assert forall j :: 0 <= j < |init| ==> init[j] == statics[j];
      }
      assert PyIndex(statics[|statics| - 1], |base|) != Some(k);
      ApplyStaticsKeeps(base, init, callArgs, k);
    }
  }

  /** An entry designated by a static argnum holds the all-`None` tree of the argument
      that the last argnum designating it picks out of `callArgs`. */
  lemma {:induction false} ApplyStaticsLastWrite(base: seq<AxisTree>, statics: seq<int>, callArgs: seq<Tree>, j: nat)
    requires ApplyStatics(base, statics, callArgs).Ok? && j < |statics|
    requires forall j' :: j < j' < |statics| ==> PyIndex(statics[j'], |base|) != PyIndex(statics[j], |base|)
    ensures PyIndex(statics[j], |base|).Some? && PyIndex(statics[j], |callArgs|).Some?
    ensures ApplyStatics(base, statics, callArgs).value[PyIndex(statics[j], |base|).value]
            == Fill(callArgs[PyIndex(statics[j], |callArgs|).value], None)
    decreases |statics|
  {
    var init := statics[..|statics| - 1];
    if j < |statics| - 1 {
      assert init[j] == statics[j];
      forall j' | j < j' < |init| ensures PyIndex(init[j'], |base|) != PyIndex(init[j], |base|) {
        assert init[j'] == statics[j'];
      }
      ApplyStaticsLastWrite(base, init, callArgs, j);
    }
  }

  /** When the axes list has one entry per argument, every static argument's entry is
      its all-`None` tree, whatever the order or repetition of the argnums. */
  lemma {:induction false} ApplyStaticsBroadcast(base: seq<AxisTree>, statics: seq<int>, callArgs: seq<Tree>, j: nat)
    requires ApplyStatics(base, statics, callArgs).Ok? && j < |statics|
    requires |base| == |callArgs|
    ensures PyIndex(statics[j], |base|).Some?
    ensures ApplyStatics(base, statics, callArgs).value[PyIndex(statics[j], |base|).value]
            == Fill(callArgs[PyIndex(statics[j], |base|).value], None)
    decreases |statics|
  {
    var init := statics[..|statics| - 1];
    if j < |statics| - 1 {
      assert init[j] == statics[j];
      ApplyStaticsBroadcast(base, init, callArgs, j);
    }
  }

  /** How many entries the axes list has once `list(...)` has been applied. */
  function AxesCount(inAxes: InAxes, callArgs: seq<Tree>): nat
  {
    match inAxes
    case SeqAxes(es) => |es|
    case _ => |callArgs|
  }

  /** The `in_axes` the wrapped function hands to vmap for one call. */
  function VmapInAxesSpec(c: PmapConfig, callArgs: seq<Tree>): (r: Result<InAxes, CallError>)
    requires ValidConfig(c)
    ensures c.statics == [] ==> r == Ok(c.inAxes)
    ensures r == Err(NotIterable) <==> c.statics != [] && c.inAxes.NoneAxes?
    ensures r == Err(IndexOutOfRange) <==>
              c.statics != [] && !c.inAxes.NoneAxes? &&
              exists j :: 0 <= j < |c.statics| &&
                (!InBounds(c.statics[j], |callArgs|) || !InBounds(c.statics[j], AxesCount(c.inAxes, callArgs)))
    ensures r.Ok? && c.statics != [] ==>
              r.value.SeqAxes? && |r.value.entries| == AxesCount(c.inAxes, callArgs)
  {
    if c.statics == [] then Ok(c.inAxes)
    else match BaseAxes(c.inAxes, callArgs)
      case Err(e) => Err(e)
      case Ok(base) =>
        match ApplyStatics(base, c.statics, callArgs)
        case Err(e) => Err(e)
        case Ok(axes) => Ok(SeqAxes(axes))
  }

  /** With an int `in_axes` and static argnums, vmap receives one entry per positional
      argument: the argument's tree with every leaf `None` where the argument is static,
      with every leaf the given axis elsewhere. */
  lemma IntAxesPerArgument(c: PmapConfig, callArgs: seq<Tree>)
    requires ValidConfig(c) && c.inAxes.IntAxes? && c.statics != []
    requires VmapInAxesSpec(c, callArgs).Ok?
    ensures var es := VmapInAxesSpec(c, callArgs).value.entries;
            && |es| == |callArgs|
            && (forall k :: 0 <= k < |callArgs| && Targets(c.statics, |callArgs|, k) ==>
                  es[k] == Fill(callArgs[k], None))
            && (forall k :: 0 <= k < |callArgs| && !Targets(c.statics, |callArgs|, k) ==>
                  es[k] == Fill(callArgs[k], Some(c.inAxes.axis)))
  {
    var base := BaseAxes(c.inAxes, callArgs).value;
    forall k | 0 <= k < |callArgs| && Targets(c.statics, |callArgs|, k)
      ensures ApplyStatics(base, c.statics, callArgs).value[k] == Fill(callArgs[k], None)
    {
      var j :| 0 <= j < |c.statics| && PyIndex(c.statics[j], |callArgs|) == Some(k);
      ApplyStaticsBroadcast(base, c.statics, callArgs, j);
    }
    forall k | 0 <= k < |callArgs| && !Targets(c.statics, |callArgs|, k)
      ensures ApplyStatics(base, c.statics, callArgs).value[k] == Fill(callArgs[k], Some(c.inAxes.axis))
    {
      ApplyStaticsKeeps(base, c.statics, callArgs, k);
    }
  }

  /** With a sequence `in_axes` and static argnums, vmap receives a list as long as the
      sequence: entries no argnum designates are copied, and when the sequence has one
      entry per argument each static entry is that argument's all-`None` tree. */
  lemma SeqAxesPerArgument(c: PmapConfig, callArgs: seq<Tree>)
    requires ValidConfig(c) && c.inAxes.SeqAxes? && c.statics != []
    requires VmapInAxesSpec(c, callArgs).Ok?
    ensures var given := c.inAxes.entries;
            var es := VmapInAxesSpec(c, callArgs).value.entries;
            && |es| == |given|
            && (forall k :: 0 <= k < |given| && !Targets(c.statics, |given|, k) ==> es[k] == given[k])
            && (|given| == |callArgs| ==>
                  forall k :: 0 <= k < |given| && Targets(c.statics, |given|, k) ==>
                    es[k] == Fill(callArgs[k], None))
  {
    var base := c.inAxes.entries;
    forall k | 0 <= k < |base| && !Targets(c.statics, |base|, k)
      ensures ApplyStatics(base, c.statics, callArgs).value[k] == base[k]
    {
      ApplyStaticsKeeps(base, c.statics, callArgs, k);
    }
    if |base| == |callArgs| {
      forall k | 0 <= k < |base| && Targets(c.statics, |base|, k)
        ensures ApplyStatics(base, c.statics, callArgs).value[k] == Fill(callArgs[k], None)
      {
        var j :| 0 <= j < |c.statics| && PyIndex(c.statics[j], |base|) == Some(k);
        ApplyStaticsBroadcast(base, c.statics, callArgs, j);
      }
    }
  }

  /** The body of `wrapped_fn` up to the call of vmap: the positional arguments are
      already bound (`call_args`). */
  method VmapInAxes(c: PmapConfig, callArgs: seq<Tree>) returns (r: Result<InAxes, CallError>)
    requires ValidConfig(c)
    ensures r == VmapInAxesSpec(c, callArgs)
  {
    if c.statics == [] {
      return Ok(c.inAxes);
    }
    var axes: seq<AxisTree>;
    if c.inAxes.IntAxes? {
      var a := c.inAxes.axis;
      axes := seq(|callArgs|, k requires 0 <= k < |callArgs| => Fill(callArgs[k], Some(a)));
    } else if c.inAxes.SeqAxes? {
      axes := c.inAxes.entries;
    } else {
      return Err(NotIterable);
    }
    ghost var base := axes;
    for i := 0 to |c.statics|
      invariant ApplyStatics(base, c.statics[..i], callArgs) == Ok(axes)
    {
      var argnum := c.statics[i];
      var ci := PyIndex(argnum, |callArgs|);
      var vi := PyIndex(argnum, |axes|);
      assert c.statics[..i + 1][..i] == c.statics[..i];
      if ci.None? || vi.None? {
        assert !ApplyStatics(base, c.statics[..i + 1], callArgs).Ok?;
        assert c.statics[..i + 1][i] == argnum;
        return Err(IndexOutOfRange);
      }
      axes := axes[vi.value := Fill(callArgs[ci.value], None)];
    }
    assert c.statics[..|c.statics|] == c.statics;
    r := Ok(SeqAxes(axes));
  }
}
