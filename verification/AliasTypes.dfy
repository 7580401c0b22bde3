/** Propagating declared types through simple assignments (tools/codegraph/language_enhance.go). */
module AliasTypes {
  import opened Sorting
  import opened Reachability

  type Types = map<string, string>

  /** An absent type reads as "", which stands for no type. */
  function Get(types: Types, x: string): string {
    if x in types then types[x] else ""
  }

  /** The n-th variable on the alias chain of `x` is the first one with a declared type. */
  ghost predicate First(declared: Types, aliases: map<string, string>, x: string, n: nat)
    decreases n
  {
    if n == 0 then Get(declared, x) != ""
    else Get(declared, x) == "" && x in aliases && First(declared, aliases, aliases[x], n - 1)
  }

  ghost function TypeAt(declared: Types, aliases: map<string, string>, x: string, n: nat): string
    requires First(declared, aliases, x, n)
    decreases n
  {
    if n == 0 then Get(declared, x) else TypeAt(declared, aliases, aliases[x], n - 1)
  }

  lemma {:induction false} FirstUnique(declared: Types, aliases: map<string, string>, x: string, m: nat, n: nat)
    requires First(declared, aliases, x, m) && First(declared, aliases, x, n)
    ensures m == n
    decreases n
  {
    if m > 0 && n > 0 {
      FirstUnique(declared, aliases, aliases[x], m - 1, n - 1);
    }
  }

  lemma {:induction false} TypeAtNonempty(declared: Types, aliases: map<string, string>, x: string, n: nat)
    requires First(declared, aliases, x, n)
    ensures TypeAt(declared, aliases, x, n) != ""
    decreases n
  {
    if n > 0 {
      TypeAtNonempty(declared, aliases, aliases[x], n - 1);
    }
  }

  /** The variable's type is that of the first declared one on its chain. */
  ghost predicate Chained(declared: Types, aliases: map<string, string>, x: string, ty: string) {
    exists n: nat :: First(declared, aliases, x, n) && TypeAt(declared, aliases, x, n) == ty
  }

  /** Every variable has the type of the first declared variable on its alias chain, and none when there is none. */
  ghost predicate Propagated(declared: Types, aliases: map<string, string>, types: Types) {
    && (forall x, n: nat :: First(declared, aliases, x, n) ==> Get(types, x) == TypeAt(declared, aliases, x, n))
    && (forall x :: Get(types, x) != "" ==> Chained(declared, aliases, x, Get(types, x)))
  }

  lemma TypedAlike(declared: Types, aliases: map<string, string>, t: Types, u: Types, x: string)
    requires Propagated(declared, aliases, t) && Propagated(declared, aliases, u)
    ensures Get(t, x) != "" ==> Get(u, x) == Get(t, x)
  {
    if Get(t, x) != "" {
      assert Chained(declared, aliases, x, Get(t, x));
    }
  }

  /** The outcome does not depend on the order in which aliases were met. */
  lemma PropagatedUnique(declared: Types, aliases: map<string, string>, t: Types, u: Types, x: string)
    requires Propagated(declared, aliases, t) && Propagated(declared, aliases, u)
    ensures Get(t, x) == Get(u, x)
  {
    TypedAlike(declared, aliases, t, u, x);
    TypedAlike(declared, aliases, u, t, x);
  }

  /** Types so far come from the chain, and declared ones stay. */
  ghost predicate Sound(declared: Types, aliases: map<string, string>, types: Types) {
    && (forall x :: Get(declared, x) != "" ==> Get(types, x) == Get(declared, x))
    && (forall x {:trigger Chained(declared, aliases, x, Get(types, x))} ::
          Get(types, x) != "" ==> Chained(declared, aliases, x, Get(types, x)))
  }

  ghost predicate Settled(aliases: map<string, string>, types: Types) {
    forall x :: x in aliases && Get(types, x) == "" ==> Get(types, aliases[x]) == ""
  }

  lemma StepSound(declared: Types, aliases: map<string, string>, types: Types, x: string)
    requires Sound(declared, aliases, types) && x in aliases && Get(types, x) == "" && Get(types, aliases[x]) != ""
    ensures Sound(declared, aliases, types[x := Get(types, aliases[x])])
  {
    var y := aliases[x];
    var ty := Get(types, y);
    var types' := types[x := ty];
    assert Chained(declared, aliases, y, ty);
    var n: nat :| First(declared, aliases, y, n) && TypeAt(declared, aliases, y, n) == ty;
    assert First(declared, aliases, x, n + 1) && TypeAt(declared, aliases, x, n + 1) == ty;
    forall z | Get(types', z) != "" ensures Chained(declared, aliases, z, Get(types', z)) {
      if z != x {
        assert Get(types, z) == Get(types', z);
      }
    }
  }

  lemma {:induction false} SettledReaches(declared: Types, aliases: map<string, string>, types: Types, x: string,
                                          n: nat)
    requires Sound(declared, aliases, types) && Settled(aliases, types) && First(declared, aliases, x, n)
    ensures Get(types, x) == TypeAt(declared, aliases, x, n)
    decreases n
  {
    if n > 0 {
      SettledReaches(declared, aliases, types, aliases[x], n - 1);
      TypeAtNonempty(declared, aliases, aliases[x], n - 1);
      assert Get(types, x) != "";
      assert Chained(declared, aliases, x, Get(types, x));
      var m: nat :| First(declared, aliases, x, m) && TypeAt(declared, aliases, x, m) == Get(types, x);
      FirstUnique(declared, aliases, x, m, n);
    }
  }

  /** Aliases that still lack a type: the loop's measure. */
  ghost function Untyped(aliases: map<string, string>, types: Types): set<string> {
    set x | x in aliases && Get(types, x) == ""
  }

  /** One pass over the aliases, in any order. */
  method Pass(declared: Types, aliases: map<string, string>, types0: Types) returns (types: Types, changed: bool)
    requires Sound(declared, aliases, types0)
    ensures Sound(declared, aliases, types)
    ensures changed ==> Untyped(aliases, types) < Untyped(aliases, types0)
    ensures !changed ==> types == types0 && Settled(aliases, types)
  {
    types, changed := types0, false;
    var rest := aliases.Keys;
    while rest != {}
      invariant rest <= aliases.Keys && Sound(declared, aliases, types)
      invariant changed ==> Untyped(aliases, types) < Untyped(aliases, types0)
      invariant !changed ==> types == types0
      invariant !changed ==>
                forall x :: x in aliases && x !in rest && Get(types, x) == "" ==> Get(types, aliases[x]) == ""
      decreases |rest|
    {
      var target := Pick(rest);
      var source := aliases[target];
      if Get(types, target) == "" && Get(types, source) != "" {
        StepSound(declared, aliases, types, target);
        ghost var before := Untyped(aliases, types);
        types := types[target := Get(types, source)];
        changed := true;
        assert Untyped(aliases, types) == before - {target} && target in before;
      }
      rest := rest - {target};
    }
  }

  /** The fixed point, reached after finitely many passes. */
  method PropagateTypes(declared: Types, aliases: map<string, string>) returns (types: Types)
    ensures Propagated(declared, aliases, types)
  {
    types := declared;
    assert forall x :: Get(declared, x) != "" ==>
      First(declared, aliases, x, 0) && TypeAt(declared, aliases, x, 0) == Get(declared, x);
    var changed := true;
    while changed
      invariant Sound(declared, aliases, types)
      invariant !changed ==> Settled(aliases, types)
      decreases |Untyped(aliases, types)|, changed
    {
      ghost var before := Untyped(aliases, types);
      types, changed := Pass(declared, aliases, types);
      SubsetSize(Untyped(aliases, types), before);
    }
    forall x, n: nat | First(declared, aliases, x, n) ensures Get(types, x) == TypeAt(declared, aliases, x, n) {
      SettledReaches(declared, aliases, types, x, n);
    }
  }
}
