/** Chasing types through inheritance, aliases and variables, all of which may be cyclic
    (tools/codegraph/project_resolver.go). */
module TypeChase {
  import opened Wrappers
  import opened Reachability

  // ----- transitiveParents -----

  /** Declared parents by short type name; `short` strips qualifiers. */
  datatype Hierarchy = Hierarchy(parents: map<string, seq<string>>, short: string -> string)

  function Parents(h: Hierarchy, t: string): seq<string> {
    if t in h.parents then h.parents[t] else []
  }

  function Inherits(h: Hierarchy): (string, string) -> bool {
    (t, p) => p != "" && exists k :: 0 <= k < |Parents(h, t)| && h.short(Parents(h, t)[k]) == p
  }

  /** `p` is reached from `t` by one or more edges. */
  ghost predicate Above(h: Hierarchy, t: string, p: string) {
    exists m :: Inherits(h)(t, m) && Reaches(Inherits(h), m, p)
  }

  ghost function Names(h: Hierarchy): set<string> {
    set t, k | t in h.parents && 0 <= k < |h.parents[t]| :: h.short(h.parents[t][k])
  }

  /** Each parent of `t` is named, taken, or still queued. */
  ghost predicate Queued(h: Hierarchy, t: string, seen: set<string>, queue: seq<string>) {
    forall k :: 0 <= k < |Parents(h, t)| ==>
      h.short(Parents(h, t)[k]) == "" || h.short(Parents(h, t)[k]) in seen || Parents(h, t)[k] in queue
  }

  ghost predicate AllAbove(h: Hierarchy, start: string, names: seq<string>) {
    forall k :: 0 <= k < |names| ==>
      h.short(names[k]) == "" || (Above(h, start, h.short(names[k])) && h.short(names[k]) in Names(h))
  }

  lemma ParentsAbove(h: Hierarchy, start: string, t: string)
    requires t == start || Above(h, start, t)
    ensures AllAbove(h, start, Parents(h, t))
  {
    forall k | 0 <= k < |Parents(h, t)| && h.short(Parents(h, t)[k]) != ""
      ensures Above(h, start, h.short(Parents(h, t)[k])) && h.short(Parents(h, t)[k]) in Names(h)
    {
      var p := h.short(Parents(h, t)[k]);
      assert Inherits(h)(t, p);
      if t == start {
        ReachesSelf(Inherits(h), p);
      } else {
        var m :| Inherits(h)(start, m) && Reaches(Inherits(h), m, t);
        ReachesExtends(Inherits(h), m, t, p);
      }
    }
  }

  lemma AboveIsSeen(h: Hierarchy, start: string, seen: set<string>, p: string)
    requires Above(h, start, p) && Queued(h, start, seen, [])
    requires forall t :: t in seen ==> Queued(h, t, seen, [])
    ensures p in seen
  {
    var m :| Inherits(h)(start, m) && Reaches(Inherits(h), m, p);
    assert m in seen;
    forall u, v | u in seen && Inherits(h)(u, v) ensures v in seen {
      assert Queued(h, u, seen, []);
    }
    ClosedHoldsReachable(Inherits(h), m, p, seen);
  }

  lemma QueuedStep(h: Hierarchy, t: string, seen: set<string>, queue: seq<string>, seen': set<string>,
                   queue': seq<string>)
    requires Queued(h, t, seen, queue) && seen <= seen' && queue != []
    requires forall q :: q in queue[1..] ==> q in queue'
    requires h.short(queue[0]) == "" || h.short(queue[0]) in seen'
    ensures Queued(h, t, seen', queue')
  {
    forall k | 0 <= k < |Parents(h, t)|
      ensures h.short(Parents(h, t)[k]) == "" || h.short(Parents(h, t)[k]) in seen' || Parents(h, t)[k] in queue'
    {
      assert queue == [queue[0]] + queue[1..];
    }
  }

  ghost predicate Chasing(h: Hierarchy, start: string, seen: set<string>, queue: seq<string>) {
    && (forall p :: p in seen ==> Above(h, start, p)) && seen <= Names(h) && AllAbove(h, start, queue)
    && Queued(h, start, seen, queue) && forall t :: t in seen ==> Queued(h, t, seen, queue)
  }

  lemma Skip(h: Hierarchy, start: string, seen: set<string>, queue: seq<string>)
    requires Chasing(h, start, seen, queue) && queue != [] && (h.short(queue[0]) == "" || h.short(queue[0]) in seen)
    ensures Chasing(h, start, seen, queue[1..])
  {
    forall t | t in seen || t == start ensures Queued(h, t, seen, queue[1..]) {
      QueuedStep(h, t, seen, queue, seen, queue[1..]);
    }
  }

  lemma Take(h: Hierarchy, start: string, seen: set<string>, queue: seq<string>, current: string)
    requires Chasing(h, start, seen, queue) && queue != [] && current == h.short(queue[0]) != "" && current !in seen
    ensures Chasing(h, start, seen + {current}, queue[1..] + Parents(h, current))
  {
    var seen', queue' := seen + {current}, queue[1..] + Parents(h, current);
    assert Above(h, start, current) && current in Names(h);
    ParentsAbove(h, start, current);
    forall t | t in seen || t == start ensures Queued(h, t, seen', queue') {
      QueuedStep(h, t, seen, queue, seen', queue');
    }
    assert Queued(h, current, seen', queue');
  }

  lemma FewerLeft(names: set<string>, seen: set<string>, t: string)
    requires t in names && t !in seen
    ensures |names - (seen + {t})| < |names - seen|
  {
    SubsetSize(names - (seen + {t}), names - seen);
    assert t in names - seen && t !in names - (seen + {t});
  }

  /** A list of the members of a set, each once. */
  ghost predicate Lists(result: seq<string>, seen: set<string>) {
    (forall p :: p in result <==> p in seen) && forall i, j :: 0 <= i < j < |result| ==> result[i] != result[j]
  }

  lemma ListsMore(result: seq<string>, seen: set<string>, p: string)
    requires Lists(result, seen) && p !in seen
    ensures Lists(result + [p], seen + {p})
  {
    assert p !in result;
  }

  /** Exactly the types reached by one or more edges, each once. */
  method TransitiveParents(h: Hierarchy, typeName: string) returns (result: seq<string>)
    ensures forall p :: p in result <==> Above(h, h.short(typeName), p)
    ensures forall i, j :: 0 <= i < j < |result| ==> result[i] != result[j]
  {
    ghost var start := h.short(typeName);
    var queue := Parents(h, h.short(typeName));
    var seen: set<string> := {};
    result := [];
    ParentsAbove(h, start, start);
    while |queue| > 0
      invariant Lists(result, seen) && Chasing(h, start, seen, queue)
      decreases |Names(h) - seen|, |queue|
    {
      var current := h.short(queue[0]);
      if current == "" || current in seen {
        Skip(h, start, seen, queue);
        queue := queue[1..];
      } else {
        Take(h, start, seen, queue, current);
        FewerLeft(Names(h), seen, current);
        ListsMore(result, seen, current);
        seen := seen + {current};
        result := result + [current];
        queue := queue[1..] + Parents(h, current);
      }
    }
    forall p | Above(h, start, p) ensures p in result {
      AboveIsSeen(h, start, seen, p);
    }
  }

  /** A receiver fits an owner that is its own type or one above it. */
  method OwnerCompatible(h: Hierarchy, same: (string, string) -> bool, receiverType: string, symbolOwner: string)
    returns (fits: bool)
    ensures fits <==> same(h.short(receiverType), symbolOwner)
                      || exists p :: Above(h, h.short(h.short(receiverType)), p) && same(p, symbolOwner)
  {
    var receiver := h.short(receiverType);
    if same(receiver, symbolOwner) {
      return true;
    }
    var above := TransitiveParents(h, receiver);
    for k := 0 to |above|
      invariant forall j :: 0 <= j < k ==> !same(above[j], symbolOwner)
    {
      if same(above[k], symbolOwner) {
        assert above[k] in above;
        return true;
      }
    }
    return false;
  }

  // ----- resolveProjectType -----

  datatype Alias = Alias(file: int, target: string, parameters: string)

  /** The aliases by base name, the calling file, the base name of a type text, and the substitution of an alias target
      for it. */
  datatype Aliases = Aliases(table: map<string, seq<Alias>>, file: int, base: string -> string, substitute: (string,
                             Alias) -> string)

  /** The first alias of the calling file from the j-th on. */
  function Own(choices: seq<Alias>, file: int, j: nat): Option<Alias>
    requires j <= |choices|
    decreases |choices| - j
  {
    if j == |choices| then None else if choices[j].file == file then Some(choices[j]) else Own(choices, file, j + 1)
  }

  /** An alias of the calling file if there is one, else the first. */
  function Chosen(choices: seq<Alias>, file: int): Option<Alias> {
    if choices == [] then None else if Own(choices, file, 0).Some? then Own(choices, file, 0) else Some(choices[0])
  }

  /** The k-th choice is the first of the calling file, or the very first when there is none of that file. */
  ghost predicate Preferred(choices: seq<Alias>, file: int, k: int) {
    && 0 <= k < |choices| && (forall j :: 0 <= j < k ==> choices[j].file != file)
    && (choices[k].file == file || (k == 0 && forall j :: 0 <= j < |choices| ==> choices[j].file != file))
  }

  method Choose(choices: seq<Alias>, file: int) returns (chosen: Option<Alias>)
    ensures chosen == Chosen(choices, file)
    ensures chosen.None? <==> choices == []
    ensures chosen.Some? ==> exists k :: Preferred(choices, file, k) && chosen.value == choices[k]
  {
    chosen := None;
    for j := 0 to |choices|
      invariant Own(choices, file, 0) == Own(choices, file, j)
      invariant forall k :: 0 <= k < j ==> choices[k].file != file
      invariant chosen == if j == 0 then None else Some(choices[0])
    {
      if choices[j].file == file {
        assert Preferred(choices, file, j);
        return Some(choices[j]);
      }
      if chosen.None? {
        chosen := Some(choices[j]);
      }
    }
    assert chosen.Some? ==> Preferred(choices, file, 0);
  }

  /** One replacement of a type text by the target of its alias. */
  function Unalias(w: Aliases, t: string): Option<string> {
    if t == "" || w.base(t) !in w.table then None
    else
      var chosen := Chosen(w.table[w.base(t)], w.file);
      if chosen.None? then None else Some(w.substitute(t, chosen.value))
  }

  /** The text after n replacements, or after as many as are possible. */
  function Iterate(w: Aliases, t: string, n: nat): string {
    if n == 0 then t
    else
      var before := Iterate(w, t, n - 1);
      if Unalias(w, before).Some? then Unalias(w, before).value else before
  }

  ghost function BasesUsed(w: Aliases, t: string, n: nat): set<string> {
    if n == 0 then {} else BasesUsed(w, t, n - 1) + {w.base(Iterate(w, t, n - 1))}
  }

  /** n replacements were made, each of another base name. */
  ghost predicate Replaced(w: Aliases, t: string, n: nat, r: string, seen: set<string>) {
    && r == Iterate(w, t, n) && seen == BasesUsed(w, t, n) && |seen| == n && seen <= w.table.Keys
    && forall k: nat :: k < n ==> Unalias(w, Iterate(w, t, k)).Some?
  }

  /** The replacements end after the n-th: no alias applies, or the base name was used before. */
  ghost predicate EndsAfter(w: Aliases, t: string, n: nat, r: string) {
    Replaced(w, t, n, r, BasesUsed(w, t, n)) && (Unalias(w, r).None? || w.base(r) in BasesUsed(w, t, n))
  }

  lemma ReplaceOnce(w: Aliases, t: string, n: nat, r: string, seen: set<string>)
    requires Replaced(w, t, n, r, seen) && Unalias(w, r).Some? && w.base(r) !in seen
    ensures Replaced(w, t, n + 1, Unalias(w, r).value, seen + {w.base(r)})
    ensures |w.table.Keys - (seen + {w.base(r)})| < |w.table.Keys - seen|
  {
    FewerLeft(w.table.Keys, seen, w.base(r));
    forall k: nat | k < n + 1 ensures Unalias(w, Iterate(w, t, k)).Some? {
      if k == n {
      }
    }
  }

  /** At most one replacement per alias name, however the texts grow; it stops where no alias applies or a base name
      comes round again. */
  method ResolveProjectType(w: Aliases, typeName: string) returns (r: string)
    ensures exists n: nat :: n <= |w.table| && EndsAfter(w, typeName, n, r)
  {
    r := typeName;
    ghost var n: nat := 0;
    var seen: set<string> := {};
    while r != ""
      invariant Replaced(w, typeName, n, r, seen)
      decreases |w.table.Keys - seen|
    {
      var base := w.base(r);
      if base in seen {
        break;
      }
      var chosen := Choose(if base in w.table then w.table[base] else [], w.file);
      if chosen.None? {
        break;
      }
      ReplaceOnce(w, typeName, n, r, seen);
      seen := seen + {base};
      r := w.substitute(r, chosen.value);
      n := n + 1;
    }
    SubsetSize(seen, w.table.Keys);
    assert EndsAfter(w, typeName, n, r);
  }

  // ----- resolvedVariableType -----

  datatype Variable = Variable(owner: string, name: string, line: int, typeName: string, target: string)

  datatype Key = Key(owner: string, name: string, line: int)

  function KeyOf(v: Variable): Key {
    Key(v.owner, v.name, v.line)
  }

  /** The variable facts. `source` gives the variable a fact is initialised from and the fields then selected;
      `field` the declared type of a field of a type. */
  datatype Facts = Facts(all: set<Variable>, source: Variable -> Option<(Variable, seq<string>)>, field: (string,
                         string) -> Option<string>) {
    ghost predicate Closed() {
      forall v :: v in all && source(v).Some? ==> source(v).value.0 in all
    }
  }

  predicate Explicit(v: Variable) {
    v.typeName != "" && v.typeName != "auto" && v.typeName != "var"
  }

  function Select(f: Facts, t: string, fields: seq<string>): string
    decreases |fields|
  {
    if fields == [] then t
    else if f.field(t, fields[0]).None? then ""
    else Select(f, f.field(t, fields[0]).value, fields[1..])
  }

  ghost function Unseen(f: Facts, seen: set<Key>): set<Key> {
    (set v | v in f.all :: KeyOf(v)) - seen
  }

  lemma FewerUnseen(f: Facts, seen: set<Key>, v: Variable)
    requires v in f.all && KeyOf(v) !in seen
    ensures |Unseen(f, seen + {KeyOf(v)})| < |Unseen(f, seen)|
  {
    var less, more := Unseen(f, seen + {KeyOf(v)}), Unseen(f, seen);
    SubsetSize(less, more);
    assert KeyOf(v) in more && KeyOf(v) !in less;
  }

  /** Terminates on cyclic facts: each call marks a fact that was not seen before. */
  function ResolvedType(f: Facts, v: Variable, seen: set<Key>): string
    requires f.Closed() && v in f.all
    decreases |Unseen(f, seen)|
  {
    if KeyOf(v) in seen then ""
    else if Explicit(v) then v.typeName
    else if f.source(v).None? then ""
    else
      FewerUnseen(f, seen, v);
      Select(f, ResolvedType(f, f.source(v).value.0, seen + {KeyOf(v)}), f.source(v).value.1)
  }

  /** The n-th variable on the initialisation chain is the first with an explicit type. */
  /** Each type has the next field of the chain, whose type is the next one. */
  ghost predicate Selects(f: Facts, fields: seq<string>, types: seq<string>) {
    |types| == |fields| + 1 && forall k :: 0 <= k < |fields| ==> f.field(types[k], fields[k]) == Some(types[k + 1])
  }

  /** Fields are selected one after another, the first one first. */
  lemma {:induction false} SelectIs(f: Facts, fields: seq<string>, types: seq<string>)
    requires Selects(f, fields, types)
    ensures Select(f, types[0], fields) == types[|fields|]
    decreases |fields|
  {
    if fields != [] {
      SelectIs(f, fields[1..], types[1..]);
    }
  }

  lemma {:induction false} SelectFinds(f: Facts, t: string, fields: seq<string>) returns (types: seq<string>)
    requires Select(f, t, fields) != ""
    ensures Selects(f, fields, types) && types[0] == t
    decreases |fields|
  {
    types := [t];
    if fields != [] {
      var rest := SelectFinds(f, f.field(t, fields[0]).value, fields[1..]);
      types := [t] + rest;
      assert forall k :: 0 < k < |fields| ==> types[k] == types[1..][k - 1] && fields[k] == fields[1..][k - 1];
    }
  }

  /** A declared type stands; without one, or with a placeholder for one, the chase goes on to the variable's source. */
  lemma DeclaredTypeStands(f: Facts, v: Variable, seen: set<Key>)
    requires f.Closed() && v in f.all && KeyOf(v) !in seen
    ensures v.typeName !in ["", "auto", "var"] ==> ResolvedType(f, v, seen) == v.typeName
    ensures v.typeName in ["", "auto", "var"] && f.source(v).None? ==> ResolvedType(f, v, seen) == ""
    ensures v.typeName in ["", "auto", "var"] && f.source(v).Some? ==>
              var (w, fields) := f.source(v).value;
              ResolvedType(f, v, seen) == Select(f, ResolvedType(f, w, seen + {KeyOf(v)}), fields)
  {
    var placeholders := ["", "auto", "var"];
    assert placeholders[0] == "" && placeholders[1] == "auto" && placeholders[2] == "var";
    if v.typeName in placeholders {
      assert !Explicit(v);
    }
  }

  ghost predicate FirstExplicit(f: Facts, v: Variable, n: nat)
    decreases n
  {
    if n == 0 then Explicit(v) else !Explicit(v) && f.source(v).Some? && FirstExplicit(f, f.source(v).value.0, n - 1)
  }

  /** Its type, with the fields of the chain selected on the way back. */
  ghost function ChainType(f: Facts, v: Variable, n: nat): string
    requires FirstExplicit(f, v, n)
    decreases n
  {
    if n == 0 then v.typeName else Select(f, ChainType(f, f.source(v).value.0, n - 1), f.source(v).value.1)
  }

  /** No key of `seen` is met on the chain. */
  ghost predicate Avoids(f: Facts, v: Variable, n: nat, seen: set<Key>)
    requires FirstExplicit(f, v, n)
    decreases n
  {
    KeyOf(v) !in seen && (n > 0 ==> Avoids(f, f.source(v).value.0, n - 1, seen))
  }

  lemma {:induction false} ExplicitOnce(f: Facts, v: Variable, m: nat, n: nat)
    requires FirstExplicit(f, v, m) && FirstExplicit(f, v, n)
    ensures m == n
    decreases n
  {
    if m > 0 && n > 0 {
      ExplicitOnce(f, f.source(v).value.0, m - 1, n - 1);
    }
  }

  ghost predicate KeysDiffer(f: Facts) {
    forall v, w :: v in f.all && w in f.all && KeyOf(v) == KeyOf(w) ==> v == w
  }

  /** A chain that ends cannot come back to where it began. */
  lemma {:induction false} NeverBack(f: Facts, v: Variable, n: nat, w: Variable, m: nat, seen: set<Key>)
    requires f.Closed() && KeysDiffer(f) && v in f.all && w in f.all && FirstExplicit(f, v, n) && FirstExplicit(f, w, m)
    requires m < n
    requires Avoids(f, w, m, seen)
    ensures Avoids(f, w, m, seen + {KeyOf(v)})
    decreases m
  {
    if KeyOf(w) == KeyOf(v) {
      ExplicitOnce(f, v, m, n);
    }
    if m > 0 {
      NeverBack(f, v, n, f.source(w).value.0, m - 1, seen);
    }
  }

  /** No key repeats on the chain up to its n-th variable. */
  ghost predicate NoKeyRepeats(f: Facts, v: Variable, n: nat)
    requires FirstExplicit(f, v, n)
    decreases n
  {
    n > 0 ==> Avoids(f, f.source(v).value.0, n - 1, {KeyOf(v)}) && NoKeyRepeats(f, f.source(v).value.0, n - 1)
  }

  lemma {:induction false} AvoidsBoth(f: Facts, v: Variable, n: nat, a: set<Key>, b: set<Key>)
    requires FirstExplicit(f, v, n) && Avoids(f, v, n, a) && Avoids(f, v, n, b)
    ensures Avoids(f, v, n, a + b)
    decreases n
  {
    if n > 0 {
      AvoidsBoth(f, f.source(v).value.0, n - 1, a, b);
    }
  }

  lemma {:induction false} ChainResolves(f: Facts, v: Variable, n: nat, seen: set<Key>)
    requires f.Closed() && v in f.all && FirstExplicit(f, v, n) && NoKeyRepeats(f, v, n) && Avoids(f, v, n, seen)
    ensures ResolvedType(f, v, seen) == ChainType(f, v, n)
    decreases n
  {
    if n > 0 {
      var w := f.source(v).value.0;
      AvoidsBoth(f, w, n - 1, seen, {KeyOf(v)});
      ChainResolves(f, w, n - 1, seen + {KeyOf(v)});
    }
  }

  /** When no key of owner, name and line repeats on its chain, a variable gets the type of the first explicitly typed
      variable there. */
  lemma ResolvedIsChainType(f: Facts, v: Variable, n: nat)
    requires f.Closed() && v in f.all && FirstExplicit(f, v, n) && NoKeyRepeats(f, v, n)
    ensures ResolvedType(f, v, {}) == ChainType(f, v, n)
  {
    NothingSeen(f, v, n);
    ChainResolves(f, v, n, {});
  }

  /** No key repeats when no two facts share one: a chain that ends cannot come back to where it began. */
  lemma {:induction false} DifferentKeys(f: Facts, v: Variable, n: nat)
    requires f.Closed() && KeysDiffer(f) && v in f.all && FirstExplicit(f, v, n)
    ensures NoKeyRepeats(f, v, n)
    decreases n
  {
    if n > 0 {
      var w := f.source(v).value.0;
      NothingSeen(f, w, n - 1);
      NeverBack(f, v, n, w, n - 1, {});
      assert {} + {KeyOf(v)} == {KeyOf(v)};
      DifferentKeys(f, w, n - 1);
    }
  }

  lemma {:induction false} NothingSeen(f: Facts, v: Variable, n: nat)
    requires FirstExplicit(f, v, n)
    ensures Avoids(f, v, n, {})
    decreases n
  {
    if n > 0 {
      NothingSeen(f, f.source(v).value.0, n - 1);
    }
  }

  /** The chase from `v` stops at the n-th variable: its key was met before, its type is explicit, or it has no source.
      */
  ghost predicate Stops(f: Facts, v: Variable, n: nat, seen: set<Key>)
    decreases n
  {
    if n == 0 then KeyOf(v) in seen || Explicit(v) || f.source(v).None?
    else
      && KeyOf(v) !in seen && !Explicit(v) && f.source(v).Some?
      && Stops(f, f.source(v).value.0, n - 1, seen + {KeyOf(v)})
  }

  /** The type found there: none on a cycle or without a source. */
  ghost function StopType(f: Facts, v: Variable, n: nat, seen: set<Key>): string
    requires Stops(f, v, n, seen)
    decreases n
  {
    if n > 0 then StopType(f, f.source(v).value.0, n - 1, seen + {KeyOf(v)})
    else if KeyOf(v) !in seen && Explicit(v) then v.typeName
    else ""
  }

  /** The fields of the first n variables of the chain, selected on the way back. */
  ghost function Back(f: Facts, v: Variable, n: nat, seen: set<Key>, t: string): string
    requires Stops(f, v, n, seen)
    decreases n
  {
    if n == 0 then t else Select(f, Back(f, f.source(v).value.0, n - 1, seen + {KeyOf(v)}, t), f.source(v).value.1)
  }

  /** For every variable of every set of facts, cyclic or not: the chase stops after at most one step per key not met
      before, and the answer is what it finds there with the fields of the chain selected. */
  lemma {:induction false} ResolvedAlways(f: Facts, v: Variable, seen: set<Key>) returns (n: nat)
    requires f.Closed() && v in f.all
    ensures Stops(f, v, n, seen) && n <= |Unseen(f, seen)|
    ensures ResolvedType(f, v, seen) == Back(f, v, n, seen, StopType(f, v, n, seen))
    decreases |Unseen(f, seen)|
  {
    if KeyOf(v) in seen || Explicit(v) || f.source(v).None? {
      n := 0;
    } else {
      FewerUnseen(f, seen, v);
      var m := ResolvedAlways(f, f.source(v).value.0, seen + {KeyOf(v)});
      n := m + 1;
    }
  }
}
