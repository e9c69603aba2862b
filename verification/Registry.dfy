/** The copy-on-write builtin registry. Dictionaries are heap objects, so a snapshot is a real alias. */
module Registry {
  import opened Types

  type Fn = nat

  /** fn None stands for a value that is not callable. */
  datatype Op = Register(name: string, fn: Option<Fn>, replace: bool) | Unregister(name: string)

  predicate Accepted(m: map<string, Fn>, op: Op) {
    match op
    case Register(name, fn, replace) => fn.Some? && (replace || name !in m)
    case Unregister(name) => name in m
  }

  /** A rejected operation changes nothing. */
  function Apply(m: map<string, Fn>, op: Op): map<string, Fn> {
    if !Accepted(m, op) then m
    else match op
      case Register(name, fn, _) => m[name := fn.value]
      case Unregister(name) => m - {name}
  }

  function Fold(m: map<string, Fn>, ops: seq<Op>): map<string, Fn> {
    if ops == [] then m else Apply(Fold(m, ops[..|ops| - 1]), ops[|ops| - 1])
  }

  class Dict {
    var entries: map<string, Fn>

    constructor (entries: map<string, Fn>)
      ensures this.entries == entries
    {
      this.entries := entries;
    }
  }

  class BuiltinRegistry {
    var builtins: Dict

    constructor (initial: map<string, Fn>)
      ensures fresh(builtins) && builtins.entries == initial
    {
      builtins := new Dict(initial);
    }

    /** Publishes a new dictionary; no dictionary that exists already is written. */
    method Update(op: Op) returns (ok: bool)
      modifies this
      ensures builtins.entries == Apply(old(builtins.entries), op) && (ok <==> Accepted(old(builtins.entries), op))
      ensures op.Register? ==> (ok <==> op.fn.Some? && (op.replace || op.name !in old(builtins.entries)))
      ensures op.Register? && ok ==> op.name in builtins.entries && builtins.entries[op.name] == op.fn.value
      ensures op.Unregister? ==> (ok <==> op.name in old(builtins.entries)) && op.name !in builtins.entries
      ensures forall name :: name != op.name ==>
                && (name in builtins.entries <==> name in old(builtins.entries))
                && (name in builtins.entries ==> builtins.entries[name] == old(builtins.entries)[name])
      ensures if ok then fresh(builtins) else builtins == old(builtins)
    {
      match op {
        case Register(name, fn, replace) =>
          if fn.None? {
            return false;
          }
          if !replace && name in builtins.entries {
            return false;
          }
          var updated := new Dict(builtins.entries);
          updated.entries := updated.entries[name := fn.value];
          builtins := updated;
        case Unregister(name) =>
          if name !in builtins.entries {
            return false;
          }
          var updated := new Dict(builtins.entries);
          updated.entries := updated.entries - {name};
          builtins := updated;
      }
      ok := true;
    }

    method Snapshot() returns (view: Dict)
      ensures view == builtins
    {
      view := builtins;
    }
  }

  /** Each map follows from the one before by the operation in between. */
  predicate Chain(maps: seq<map<string, Fn>>, ops: seq<Op>) {
    |maps| == |ops| + 1 && forall k :: 0 <= k < |ops| ==> maps[k + 1] == Apply(maps[k], ops[k])
  }

  lemma ChainExtends(maps: seq<map<string, Fn>>, ops: seq<Op>, op: Op)
    requires Chain(maps, ops)
    ensures Chain(maps + [Apply(maps[|ops|], op)], ops + [op])
  {
  }

  lemma {:induction false} ChainIsFold(maps: seq<map<string, Fn>>, ops: seq<Op>, k: nat)
    requires Chain(maps, ops) && k <= |ops|
    ensures maps[k] == Fold(maps[0], ops[..k])
  {
    if k == 0 {
    } else {
      ChainIsFold(maps, ops, k - 1);
      assert ops[..k][..k - 1] == ops[..k - 1];
    }
  }

  ghost predicate Show(views: seq<Dict>, maps: seq<map<string, Fn>>)
    reads views
  {
    |views| == |maps| && forall k :: 0 <= k < |views| ==> views[k].entries == maps[k]
  }

  /**
   Any history of registrations and removals, accepted or rejected, with a snapshot taken before
   each and one at the end: at the end every snapshot still shows the fold of the operations that
   preceded it, and the live dictionary the fold of all.
   */
  method History(initial: map<string, Fn>, ops: seq<Op>) returns (snapshots: seq<Dict>, accepted: seq<bool>)
    ensures |snapshots| == |ops| + 1 && |accepted| == |ops|
    ensures forall k :: 0 <= k <= |ops| ==> snapshots[k].entries == Fold(initial, ops[..k])
    ensures forall k :: 0 <= k < |ops| ==> accepted[k] == Accepted(Fold(initial, ops[..k]), ops[k])
  {
    var registry := new BuiltinRegistry(initial);
    var first := registry.Snapshot();
    snapshots, accepted := [first], [];
    ghost var maps := [initial];
    for n := 0 to |ops|
      invariant Chain(maps, ops[..n]) && maps[0] == initial
      invariant fresh(registry) && Show(snapshots, maps) && registry.builtins == snapshots[n]
      invariant |accepted| == n && forall k :: 0 <= k < n ==> accepted[k] == Accepted(maps[k], ops[k])
    {
      ChainExtends(maps, ops[..n], ops[n]);
      assert ops[..n + 1] == ops[..n] + [ops[n]];
      var ok := registry.Update(ops[n]);
      var view := registry.Snapshot();
      maps := maps + [view.entries];
      snapshots, accepted := snapshots + [view], accepted + [ok];
    }
    assert ops[..|ops|] == ops;
    forall k | 0 <= k <= |ops| ensures maps[k] == Fold(initial, ops[..k]) {
      ChainIsFold(maps, ops, k);
    }
  }

  function Only(ops: seq<Op>, name: string): seq<Op> {
    if ops == [] then []
    else Only(ops[..|ops| - 1], name) + (if ops[|ops| - 1].name == name then [ops[|ops| - 1]] else [])
  }

  /** What a name is bound to depends only on the operations on that name. */
  lemma {:induction false} NamesAreIndependent(m: map<string, Fn>, ops: seq<Op>, name: string)
    ensures name in Fold(m, ops) <==> name in Fold(m, Only(ops, name))
    ensures name in Fold(m, ops) ==> Fold(m, ops)[name] == Fold(m, Only(ops, name))[name]
  {
    if ops == [] {
    } else {
      var before, op := ops[..|ops| - 1], ops[|ops| - 1];
      NamesAreIndependent(m, before, name);
      var kept := Only(ops, name);
      if op.name == name {
        assert kept[..|kept| - 1] == Only(before, name) && kept[|kept| - 1] == op;
      } else {
        assert kept == Only(before, name);
      }
    }
  }
  /** No operation among ops is on the name. */
  predicate Untouched(ops: seq<Op>, name: string) {
    forall k :: 0 <= k < |ops| ==> ops[k].name != name
  }

  /** The bindings of name in m and m' are the same, or both absent. */
  predicate SameBinding(m: map<string, Fn>, m': map<string, Fn>, name: string) {
    (name in m <==> name in m') && (name in m ==> m[name] == m'[name])
  }

  lemma {:induction false} UntouchedKeeps(m: map<string, Fn>, before: seq<Op>, after: seq<Op>, name: string)
    requires Untouched(after, name)
    ensures SameBinding(Fold(m, before), Fold(m, before + after), name)
    decreases |after|
  {
    if after == [] {
      assert before + after == before;
    } else {
      var most, last := after[..|after| - 1], after[|after| - 1];
      UntouchedKeeps(m, before, most, name);
      assert (before + after)[..|before + after| - 1] == before + most;
    }
  }

  /**
   The last operation on a name has the last word, through any history before it and any operations
   on other names after it: a register that may replace binds its function, one that may not binds it
   only where nothing was bound, one of a non-callable changes nothing, and an unregister unbinds.
   */
  lemma LastWord(m: map<string, Fn>, before: seq<Op>, op: Op, after: seq<Op>)
    requires Untouched(after, op.name)
    ensures var was, now := Fold(m, before), Fold(m, before + [op] + after);
            match op
            case Unregister(name) => name !in now
            case Register(name, fn, replace) =>
              if fn.None? || (!replace && name in was) then SameBinding(was, now, name)
              else name in now && now[name] == fn.value
  {
    assert (before + [op])[..|before|] == before;
    UntouchedKeeps(m, before + [op], after, op.name);
  }
}
