/** The incremental code index (tools/codegraph/operations.go, db.go): a cache of parse results keyed by content
    hash, refreshed by opIndex under failing reads, parses, stores and commits. */
module CodeIndex {
  import opened Wrappers

  type Path = string
  type Bytes = string

  const BATCH_SIZE: nat := 100
  const OWNER_KINDS := {"class", "struct", "interface", "trait", "record"}

  datatype Symbol = Symbol(name: string, kind: string, scope: string, detail: string)

  /** One indexed file; an empty hash marks facts that must be refreshed. */
  datatype Row = Row(hash: string, lang: string, facts: seq<Symbol>)

  type Rows = map<Path, Row>

  /** The parts of the system outside the index: SHA-256, the extractor of each version, language detection under
      the run's hint, and the name match by which a type owns a scope. */
  datatype Config = Config(
    digest: Bytes -> string, parse: (string, string, Bytes) -> seq<Symbol>,
    detect: Path -> string, owns: (Symbol, string) -> bool)

  ghost predicate Lawful(cfg: Config) {
    && (forall b :: cfg.digest(b) != "")
    && (forall a, b :: cfg.digest(a) == cfg.digest(b) ==> a == b)
  }

  /** What one database operation does: `Unreleased` stores but reports an error, `Leaves` is a failed store whose
      savepoint rollback fails too, so that partial changes stay in the transaction. */
  datatype Fault = Fine | Fails | Unreleased | Leaves(row: Row)

  datatype Item = Unreadable | Found(path: Path)

  /** Everything a run meets, indexed by the moment of the operation. */
  datatype Env = Env(walk: seq<Item>, read: (nat, Path) -> Option<Bytes>, fault: nat -> Fault, pick: nat -> nat)

  datatype Job = Job(path: Path, row: Row)

  datatype Report = Report(indexed: nat, skipped: nat, removed: nat, errors: nat)

  // ----- the symbol-kind pass -----

  predicate Promotable(sym: Symbol) {
    sym.kind == "function" && sym.scope != ""
  }

  function Promoted(sym: Symbol): Symbol {
    sym.(kind := "method")
  }

  predicate Owns(cfg: Config, sym: Symbol, scope: string) {
    sym.kind in OWNER_KINDS && cfg.owns(sym, scope)
  }

  predicate HasOwner(cfg: Config, rows: Rows, scope: string) {
    exists p, sym :: p in rows && sym in rows[p].facts && Owns(cfg, sym, scope)
  }

  function ResolveSymbol(cfg: Config, rows: Rows, sym: Symbol): Symbol {
    if Promotable(sym) && HasOwner(cfg, rows, sym.scope) then Promoted(sym) else sym
  }

  function ResolveFacts(cfg: Config, rows: Rows, facts: seq<Symbol>): seq<Symbol> {
    seq(|facts|, i requires 0 <= i < |facts| => ResolveSymbol(cfg, rows, facts[i]))
  }

  /** resolveSymbolKinds: one UPDATE over all stored symbols. */
  function Resolve(cfg: Config, rows: Rows): Rows {
    map p | p in rows :: rows[p].(facts := ResolveFacts(cfg, rows, rows[p].facts))
  }

  // ----- what a row stores -----

  /** The stored facts are the parse, up to symbols the kind pass has promoted since. */
  ghost predicate UpToPromotion(parse: seq<Symbol>, facts: seq<Symbol>) {
    |parse| == |facts| && forall i :: 0 <= i < |facts| ==> SameOrPromoted(parse[i], facts[i])
  }

  predicate SameOrPromoted(base: Symbol, sym: Symbol) {
    sym == base || (Promotable(base) && sym == Promoted(base))
  }

  ghost predicate StoresParseOf(cfg: Config, version: string, row: Row, bytes: Bytes) {
    row.hash == cfg.digest(bytes) && UpToPromotion(cfg.parse(version, row.lang, bytes), row.facts)
  }

  /** The hash is empty, or the digest of bytes whose parse by this version the row stores. */
  ghost predicate Faithful(cfg: Config, version: string, row: Row) {
    row.hash == "" || exists bytes :: StoresParseOf(cfg, version, row, bytes)
  }

  ghost predicate AllFaithful(cfg: Config, version: string, rows: Rows) {
    forall p :: p in rows ==> Faithful(cfg, version, rows[p])
  }

  ghost predicate JobsFaithful(cfg: Config, version: string, jobs: seq<Job>) {
    forall j :: j in jobs ==> Faithful(cfg, version, j.row)
  }

  // ----- the outcome of a run without errors -----

  function Blanked(rows: Rows): Rows {
    map p | p in rows :: rows[p].(hash := "")
  }

  function FreshRow(cfg: Config, version: string, path: Path, bytes: Bytes): Row {
    Row(cfg.digest(bytes), cfg.detect(path), cfg.parse(version, cfg.detect(path), bytes))
  }

  predicate Unchanged(cfg: Config, rows: Rows, path: Path, bytes: Bytes) {
    path in rows && rows[path].hash == cfg.digest(bytes)
  }

  /** The rows after walking, purging and storing: unchanged files keep their row. */
  function Refreshed(cfg: Config, version: string, rows: Rows, tree: map<Path, Bytes>): Rows {
    map p | p in tree && cfg.detect(p) != "" ::
      if Unchanged(cfg, rows, p, tree[p]) then rows[p] else FreshRow(cfg, version, p, tree[p])
  }

  predicate GraphChanged(cfg: Config, version: string, current: string, rows: Rows, tree: map<Path, Bytes>) {
    version != current || Touched(cfg, rows, tree)
  }

  /** Some row is purged or some file is stored. */
  predicate Touched(cfg: Config, rows: Rows, tree: map<Path, Bytes>) {
    || (exists p :: p in rows && !(p in tree && cfg.detect(p) != ""))
    || (exists p :: p in tree && cfg.detect(p) != "" && !Unchanged(cfg, rows, p, tree[p]))
  }

  /** The rows an error-free run over `tree` ends with, whatever order files were walked, parsed and stored in. */
  function Indexed(cfg: Config, version: string, current: string, rows: Rows, tree: map<Path, Bytes>): Rows {
    var start := if version == current then rows else Blanked(rows);
    var refreshed := Refreshed(cfg, current, start, tree);
    if GraphChanged(cfg, version, current, start, tree) then Resolve(cfg, refreshed) else refreshed
  }

  /** Indexing the same tree into an empty database. */
  function FromScratch(cfg: Config, current: string, tree: map<Path, Bytes>): Rows {
    Resolve(cfg, Refreshed(cfg, current, map[], tree))
  }

  // ----- convergence -----

  /** `rows` store the parse of the tree by the current version, up to promotion. */
  ghost predicate Mirrors(cfg: Config, current: string, rows: Rows, tree: map<Path, Bytes>) {
    && (forall p :: p in rows <==> p in tree && cfg.detect(p) != "")
    && forall p :: p in rows ==> MirrorsFile(cfg, current, rows[p], p, tree[p])
  }

  ghost predicate MirrorsFile(cfg: Config, current: string, row: Row, path: Path, bytes: Bytes) {
    && row.hash == cfg.digest(bytes) && row.lang == cfg.detect(path)
    && UpToPromotion(cfg.parse(current, cfg.detect(path), bytes), row.facts)
  }

  /** The rows were detected under the hint of this run. */
  ghost predicate FixedHint(cfg: Config, rows: Rows) {
    forall p :: p in rows && rows[p].hash != "" ==> rows[p].lang == cfg.detect(p)
  }

  lemma RefreshedMirrors(cfg: Config, current: string, rows: Rows, tree: map<Path, Bytes>)
    requires Lawful(cfg) && AllFaithful(cfg, current, rows) && FixedHint(cfg, rows)
    ensures Mirrors(cfg, current, Refreshed(cfg, current, rows, tree), tree)
  {
    var refreshed := Refreshed(cfg, current, rows, tree);
    forall p | p in refreshed ensures MirrorsFile(cfg, current, refreshed[p], p, tree[p]) {
      if Unchanged(cfg, rows, p, tree[p]) {
        assert Faithful(cfg, current, rows[p]);
        var bytes :| StoresParseOf(cfg, current, rows[p], bytes);
        assert bytes == tree[p];
      }
    }
  }

  lemma ResolveKeeps(cfg: Config, rows: Rows, parse: seq<Symbol>, facts: seq<Symbol>)
    requires UpToPromotion(parse, facts)
    ensures UpToPromotion(parse, ResolveFacts(cfg, rows, facts))
  {
    var resolved := ResolveFacts(cfg, rows, facts);
    forall i | 0 <= i < |facts| ensures SameOrPromoted(parse[i], resolved[i]) {
      assert SameOrPromoted(parse[i], facts[i]);
    }
  }

  lemma ResolveMirrors(cfg: Config, current: string, rows: Rows, tree: map<Path, Bytes>)
    requires Mirrors(cfg, current, rows, tree)
    ensures Mirrors(cfg, current, Resolve(cfg, rows), tree)
  {
    forall p | p in rows ensures MirrorsFile(cfg, current, Resolve(cfg, rows)[p], p, tree[p]) {
      assert MirrorsFile(cfg, current, rows[p], p, tree[p]);
      ResolveKeeps(cfg, rows, cfg.parse(current, cfg.detect(p), tree[p]), rows[p].facts);
    }
  }

  lemma ResolveFaithful(cfg: Config, version: string, rows: Rows)
    requires AllFaithful(cfg, version, rows)
    ensures AllFaithful(cfg, version, Resolve(cfg, rows))
  {
    var resolved := Resolve(cfg, rows);
    forall p | p in rows ensures Faithful(cfg, version, resolved[p]) {
      assert Faithful(cfg, version, rows[p]);
      if rows[p].hash != "" {
        var bytes :| StoresParseOf(cfg, version, rows[p], bytes);
        ResolveKeeps(cfg, rows, cfg.parse(version, rows[p].lang, bytes), rows[p].facts);
        assert StoresParseOf(cfg, version, resolved[p], bytes);
      }
    }
  }

  ghost function Start(version: string, current: string, rows: Rows): Rows {
    if version == current then rows else Blanked(rows)
  }

  lemma StartFaithful(cfg: Config, version: string, current: string, rows: Rows)
    requires AllFaithful(cfg, version, rows) && FixedHint(cfg, rows)
    ensures AllFaithful(cfg, current, Start(version, current, rows)) && FixedHint(cfg, Start(version, current, rows))
  {
  }

  /** From any faithful state, an error-free run ends with the file set, hashes and parsed facts of a fresh index. */
  lemma ConvergesUpToPromotion(cfg: Config, version: string, current: string, rows: Rows, tree: map<Path, Bytes>)
    requires Lawful(cfg) && AllFaithful(cfg, version, rows) && FixedHint(cfg, rows)
    ensures Mirrors(cfg, current, Indexed(cfg, version, current, rows, tree), tree)
    ensures Mirrors(cfg, current, FromScratch(cfg, current, tree), tree)
  {
    var start := Start(version, current, rows);
    StartFaithful(cfg, version, current, rows);
    RefreshedMirrors(cfg, current, start, tree);
    ResolveMirrors(cfg, current, Refreshed(cfg, current, start, tree), tree);
    RefreshedMirrors(cfg, current, map[], tree);
    ResolveMirrors(cfg, current, Refreshed(cfg, current, map[], tree), tree);
  }

  // ----- exact convergence of symbol kinds -----

  lemma SameOwners(cfg: Config, current: string, rows: Rows, rows': Rows, tree: map<Path, Bytes>, scope: string)
    requires Mirrors(cfg, current, rows, tree) && Mirrors(cfg, current, rows', tree) && HasOwner(cfg, rows, scope)
    ensures HasOwner(cfg, rows', scope)
  {
    var p, sym :| p in rows && sym in rows[p].facts && Owns(cfg, sym, scope);
    var i :| 0 <= i < |rows[p].facts| && rows[p].facts[i] == sym;
    assert MirrorsFile(cfg, current, rows[p], p, tree[p]) && MirrorsFile(cfg, current, rows'[p], p, tree[p]);
    var parse := cfg.parse(current, cfg.detect(p), tree[p]);
    assert SameOrPromoted(parse[i], rows[p].facts[i]) && SameOrPromoted(parse[i], rows'[p].facts[i]);
    assert rows'[p].facts[i] == sym;
    assert p in rows' && sym in rows'[p].facts;
  }

  /** A symbol of a kept row that an earlier run promoted although its owner is gone. */
  ghost predicate Stale(cfg: Config, current: string, rows: Rows, tree: map<Path, Bytes>, p: Path, i: int) {
    && p in rows && p in tree && 0 <= i < |rows[p].facts| && i < |cfg.parse(current, cfg.detect(p), tree[p])|
    && var base := cfg.parse(current, cfg.detect(p), tree[p])[i];
       rows[p].facts[i] != base && !HasOwner(cfg, rows, base.scope)
  }

  /** A symbol left unpromoted by an earlier run although its owner is indexed. */
  ghost predicate Missed(cfg: Config, rows: Rows, p: Path, i: int) {
    && p in rows && 0 <= i < |rows[p].facts|
    && Promotable(rows[p].facts[i]) && HasOwner(cfg, rows, rows[p].facts[i].scope)
  }

  lemma SymbolConverges(cfg: Config, current: string, rows: Rows, tree: map<Path, Bytes>, p: Path, i: int,
                        changed: bool)
    requires Mirrors(cfg, current, rows, tree) && Mirrors(cfg, current, Refreshed(cfg, current, map[], tree), tree)
    requires p in rows && 0 <= i < |rows[p].facts|
    ensures var fresh_ := Refreshed(cfg, current, map[], tree);
            var sym := if changed then ResolveSymbol(cfg, rows, rows[p].facts[i]) else rows[p].facts[i];
            p in fresh_ && |fresh_[p].facts| == |rows[p].facts| &&
            (sym == ResolveSymbol(cfg, fresh_, fresh_[p].facts[i]) <==>
             !Stale(cfg, current, rows, tree, p, i) && (changed || !Missed(cfg, rows, p, i)))
  {
    var fresh_ := Refreshed(cfg, current, map[], tree);
    assert MirrorsFile(cfg, current, rows[p], p, tree[p]);
    var base := cfg.parse(current, cfg.detect(p), tree[p])[i];
    assert fresh_[p].facts[i] == base && SameOrPromoted(base, rows[p].facts[i]);
    if HasOwner(cfg, rows, base.scope) { SameOwners(cfg, current, rows, fresh_, tree, base.scope); }
    if HasOwner(cfg, fresh_, base.scope) { SameOwners(cfg, current, fresh_, rows, tree, base.scope); }
  }

  ghost predicate KindsSettled(cfg: Config, current: string, kept: Rows, tree: map<Path, Bytes>, changed: bool) {
    forall p, i :: p in kept && 0 <= i < |kept[p].facts| ==>
      !Stale(cfg, current, kept, tree, p, i) && (changed || !Missed(cfg, kept, p, i))
  }

  lemma KeptConverges(cfg: Config, current: string, kept: Rows, tree: map<Path, Bytes>, changed: bool)
    requires Mirrors(cfg, current, kept, tree) && Mirrors(cfg, current, Refreshed(cfg, current, map[], tree), tree)
    ensures (if changed then Resolve(cfg, kept) else kept) == FromScratch(cfg, current, tree) <==>
            KindsSettled(cfg, current, kept, tree, changed)
  {
    var left, right := if changed then Resolve(cfg, kept) else kept, FromScratch(cfg, current, tree);
    forall p, i | p in kept && 0 <= i < |kept[p].facts|
      ensures p in right && |right[p].facts| == |left[p].facts|
      ensures left[p].facts[i] == right[p].facts[i] <==>
                !Stale(cfg, current, kept, tree, p, i) && (changed || !Missed(cfg, kept, p, i))
    {
      SymbolConverges(cfg, current, kept, tree, p, i, changed);
    }
    forall p | p in kept
      ensures left[p].hash == right[p].hash && left[p].lang == right[p].lang && |left[p].facts| == |right[p].facts|
    {
      assert MirrorsFile(cfg, current, kept[p], p, tree[p]);
    }
    RowsEqual(left, right);
  }

  /** An error-free incremental run equals a fresh index exactly when no kept row holds a stale promotion and, if
      the run changed nothing, none misses one: the kind pass never demotes and is skipped when nothing changed. */
  lemma ConvergesExactlyWhen(cfg: Config, version: string, current: string, rows: Rows, tree: map<Path, Bytes>)
    requires Lawful(cfg) && AllFaithful(cfg, version, rows) && FixedHint(cfg, rows)
    ensures Indexed(cfg, version, current, rows, tree) == FromScratch(cfg, current, tree) <==>
            KindsSettled(cfg, current, Refreshed(cfg, current, Start(version, current, rows), tree), tree,
                         GraphChanged(cfg, version, current, Start(version, current, rows), tree))
  {
    var start := Start(version, current, rows);
    StartFaithful(cfg, version, current, rows);
    RefreshedMirrors(cfg, current, start, tree);
    RefreshedMirrors(cfg, current, map[], tree);
    KeptConverges(cfg, current, Refreshed(cfg, current, start, tree), tree,
                  GraphChanged(cfg, version, current, start, tree));
  }

  /** Two mirrors of a tree are equal once their facts are. */
  lemma RowsEqual(left: Rows, right: Rows)
    requires left.Keys == right.Keys
    requires forall p :: p in left ==>
              left[p].hash == right[p].hash && left[p].lang == right[p].lang && |left[p].facts| == |right[p].facts|
    ensures left == right <==> forall p, i :: p in left && 0 <= i < |left[p].facts| ==>
              left[p].facts[i] == right[p].facts[i]
  {
    if forall p, i :: p in left && 0 <= i < |left[p].facts| ==> left[p].facts[i] == right[p].facts[i] {
      forall p | p in left ensures left[p] == right[p] {
        assert left[p].facts == right[p].facts;
      }
    }
  }

  // ----- two ways in which kinds do not converge -----

  const METHOD_FILE := Symbol("bar", "function", "Foo", "")
  const CLASS_FILE := Symbol("Foo", "class", "", "")

  /** File "A" defines Foo::bar out of class, file "B" defines class Foo. */
  function Example(): Config {
    Config(b => "#" + b,
           (v, lang, b) => if b == "A" then [METHOD_FILE] else if b == "B" then [CLASS_FILE] else [],
           p => "cpp",
           (sym: Symbol, scope) => sym.name == scope)
  }

  const BOTH: map<Path, Bytes> := map["a.cpp" := "A", "b.h" := "B"]
  const ONLY_A: map<Path, Bytes> := map["a.cpp" := "A"]

  lemma ExampleLawful()
    ensures Lawful(Example())
  {
    forall a, b | Example().digest(a) == Example().digest(b) ensures a == b {
      assert ("#" + a)[1..] == a && ("#" + b)[1..] == b;
    }
  }

  lemma OwnerInBoth(rows: Rows)
    requires "b.h" in rows && CLASS_FILE in rows["b.h"].facts
    ensures HasOwner(Example(), rows, "Foo")
  {
    assert Owns(Example(), CLASS_FILE, "Foo");
  }

  lemma BothPromotes()
    ensures var rows := Indexed(Example(), "", "10", map[], BOTH);
            "a.cpp" in rows && rows["a.cpp"].hash == "#A" && rows["a.cpp"].facts == [Promoted(METHOD_FILE)]
  {
    var first := Refreshed(Example(), "10", map[], BOTH);
    assert Blanked(map[]) == map[];
    OwnerInBoth(first);
    assert first["a.cpp"].facts[0] == METHOD_FILE;
  }

  lemma PromotedStays(rows: Rows)
    requires "a.cpp" in rows && rows["a.cpp"].hash == "#A" && rows["a.cpp"].facts == [Promoted(METHOD_FILE)]
    ensures Indexed(Example(), "10", "10", rows, ONLY_A)["a.cpp"].facts[0] == Promoted(METHOD_FILE)
  {
    assert Unchanged(Example(), rows, "a.cpp", "A");
  }

  lemma ScratchHasNoOwner()
    ensures FromScratch(Example(), "10", ONLY_A)["a.cpp"].facts[0] == METHOD_FILE
  {
    var scratch := Refreshed(Example(), "10", map[], ONLY_A);
    assert scratch["a.cpp"].facts == [METHOD_FILE] && scratch.Keys == {"a.cpp"};
    assert !HasOwner(Example(), scratch, "Foo");
  }

  /** After the class disappears from the tree the stored kind stays "method"; a fresh index says "function". */
  lemma StalePromotionSurvives()
    ensures Lawful(Example())
    ensures Indexed(Example(), "10", "10", Indexed(Example(), "", "10", map[], BOTH), ONLY_A)
            != FromScratch(Example(), "10", ONLY_A)
  {
    ExampleLawful();
    BothPromotes();
    PromotedStays(Indexed(Example(), "", "10", map[], BOTH));
    ScratchHasNoOwner();
  }

  lemma StoredIsUnchanged()
    ensures var stored := Refreshed(Example(), "10", map[], BOTH);
            Indexed(Example(), "10", "10", stored, BOTH) == stored
  {
    var cfg := Example();
    var stored := Refreshed(cfg, "10", map[], BOTH);
    assert forall p :: p in BOTH ==> Unchanged(cfg, stored, p, BOTH[p]);
    assert !GraphChanged(cfg, "10", "10", stored, BOTH);
    assert Refreshed(cfg, "10", stored, BOTH) == stored;
  }

  lemma ScratchPromotes()
    ensures Refreshed(Example(), "10", map[], BOTH)["a.cpp"].facts[0] == METHOD_FILE
    ensures FromScratch(Example(), "10", BOTH)["a.cpp"].facts[0] == Promoted(METHOD_FILE)
  {
    var stored := Refreshed(Example(), "10", map[], BOTH);
    OwnerInBoth(stored);
    assert stored["a.cpp"].facts[0] == METHOD_FILE;
  }

  /** If the kind pass failed once, a later error-free run over an unchanged tree does not repeat it. */
  lemma MissedPromotionSurvives()
    ensures Lawful(Example())
    ensures var stored := Refreshed(Example(), "10", map[], BOTH);
            Indexed(Example(), "10", "10", stored, BOTH) == stored != FromScratch(Example(), "10", BOTH)
  {
    ExampleLawful();
    StoredIsUnchanged();
    ScratchPromotes();
  }

  // ----- the run itself -----

  ghost predicate Stable(env: Env, tree: map<Path, Bytes>) {
    && (forall p :: Found(p) in env.walk <==> p in tree)
    && (forall t, p :: env.read(t, p).Some? ==> p in tree && env.read(t, p).value == tree[p])
  }

  /** No savepoint rollback fails. */
  ghost predicate RollsBack(env: Env) {
    forall t :: !env.fault(t).Leaves?
  }

  /** Nothing fails: every operation succeeds and every file found can be read. */
  ghost predicate Smooth(env: Env) {
    && (forall t :: env.fault(t).Fine?) && Unreadable !in env.walk
    && forall t, p :: Found(p) in env.walk ==> env.read(t, p).Some?
  }

  // ----- one batch transaction, fault by fault -----

  /** The row a store leaves in the transaction, if it leaves any. */
  function Left(job: Job, fault: Fault): Option<Row> {
    match fault
    case Fine => Some(job.row)
    case Unreleased => Some(job.row)
    case Leaves(row) => Some(row)
    case Fails => None
  }

  /** The transaction after the first n stores, which meet the faults from moment t on. */
  function StoreEach(rows: Rows, batch: seq<Job>, n: nat, env: Env, t: nat): Rows
    requires n <= |batch|
  {
    if n == 0 then rows
    else
      var tx := StoreEach(rows, batch, n - 1, env, t);
      var left := Left(batch[n - 1], env.fault(t + n - 1));
      if left.None? then tx else tx[batch[n - 1].path := left.value]
  }

  predicate Commits(batch: seq<Job>, env: Env, t: nat) {
    batch != [] && env.fault(t).Fine? && env.fault(t + 1 + |batch|).Fine?
  }

  /** The rows after a batch whose transaction begins at moment t. */
  function AfterBatch(rows: Rows, batch: seq<Job>, env: Env, t: nat): Rows {
    if Commits(batch, env, t) then StoreEach(rows, batch, |batch|, env, t + 1) else rows
  }

  /** The k-th store leaves a row that no later store of the batch overwrites. */
  ghost predicate LeftLast(batch: seq<Job>, n: nat, env: Env, t: nat, k: nat)
    requires n <= |batch|
  {
    && k < n && Left(batch[k], env.fault(t + k)).Some?
    && forall m :: k < m < n && batch[m].path == batch[k].path ==> Left(batch[m], env.fault(t + m)).None?
  }

  /** The row that the k-th store leaves last for `p`. */
  ghost predicate LeavesFor(batch: seq<Job>, n: nat, env: Env, t: nat, k: nat, p: Path, row: Row)
    requires n <= |batch|
  {
    LeftLast(batch, n, env, t, k) && batch[k].path == p && Left(batch[k], env.fault(t + k)).value == row
  }

  lemma {:induction false} StoreEachAt(rows: Rows, batch: seq<Job>, n: nat, env: Env, t: nat, p: Path)
    requires n <= |batch| && p in StoreEach(rows, batch, n, env, t)
    ensures var tx := StoreEach(rows, batch, n, env, t);
            (p in rows && tx[p] == rows[p]) || exists k: nat :: LeavesFor(batch, n, env, t, k, p, tx[p])
    decreases n
  {
    if n > 0 {
      var tx, tx' := StoreEach(rows, batch, n - 1, env, t), StoreEach(rows, batch, n, env, t);
      if batch[n - 1].path == p && Left(batch[n - 1], env.fault(t + (n - 1))).Some? {
        assert LeavesFor(batch, n, env, t, n - 1, p, tx'[p]);
      } else {
        assert p in tx && tx[p] == tx'[p];
        StoreEachAt(rows, batch, n - 1, env, t, p);
        if !(p in rows && tx[p] == rows[p]) {
          var k: nat :| LeavesFor(batch, n - 1, env, t, k, p, tx[p]);
          assert LeavesFor(batch, n, env, t, k, p, tx'[p]);
        }
      }
    }
  }

  lemma {:induction false} LeftStays(rows: Rows, batch: seq<Job>, n: nat, env: Env, t: nat, k: nat)
    requires n <= |batch| && LeftLast(batch, n, env, t, k)
    ensures var tx := StoreEach(rows, batch, n, env, t);
            batch[k].path in tx && tx[batch[k].path] == Left(batch[k], env.fault(t + k)).value
    decreases n
  {
    if k < n - 1 {
      assert LeftLast(batch, n - 1, env, t, k);
      LeftStays(rows, batch, n - 1, env, t, k);
    }
  }

  /** Every row that a failed rollback leaves behind is overwritten by a later store of the same file, or happens to be
      faithful itself. */
  ghost predicate LeftoversFaithful(cfg: Config, version: string, batch: seq<Job>, env: Env, t: nat) {
    forall k: nat :: k < |batch| && env.fault(t + k).Leaves? && LeftLast(batch, |batch|, env, t, k) ==>
      Faithful(cfg, version, env.fault(t + k).row)
  }

  lemma LeftLastFaithful(cfg: Config, version: string, batch: seq<Job>, env: Env, t: nat, k: nat)
    requires JobsFaithful(cfg, version, batch) && LeftoversFaithful(cfg, version, batch, env, t)
    requires LeftLast(batch, |batch|, env, t, k)
    ensures Faithful(cfg, version, Left(batch[k], env.fault(t + k)).value)
  {
    assert batch[k] in batch;
  }

  lemma LeftoversSuffice(cfg: Config, version: string, rows: Rows, batch: seq<Job>, env: Env, t: nat)
    requires AllFaithful(cfg, version, rows) && JobsFaithful(cfg, version, batch)
    requires LeftoversFaithful(cfg, version, batch, env, t)
    ensures AllFaithful(cfg, version, StoreEach(rows, batch, |batch|, env, t))
  {
    var n := |batch|;
    var tx := StoreEach(rows, batch, n, env, t);
    forall p | p in tx ensures Faithful(cfg, version, tx[p]) {
      StoreEachAt(rows, batch, n, env, t, p);
      if !(p in rows && tx[p] == rows[p]) {
        var k: nat :| LeavesFor(batch, n, env, t, k, p, tx[p]);
        LeftLastFaithful(cfg, version, batch, env, t, k);
      }
    }
  }

  lemma LeftoversNeeded(cfg: Config, version: string, rows: Rows, batch: seq<Job>, env: Env, t: nat)
    requires AllFaithful(cfg, version, StoreEach(rows, batch, |batch|, env, t))
    ensures LeftoversFaithful(cfg, version, batch, env, t)
  {
    forall k: nat | k < |batch| && env.fault(t + k).Leaves? && LeftLast(batch, |batch|, env, t, k)
      ensures Faithful(cfg, version, env.fault(t + k).row)
    {
      LeftStays(rows, batch, |batch|, env, t, k);
    }
  }

  /** A committed batch keeps the rows faithful exactly when its leftovers are. */
  lemma BatchFaithfulIff(cfg: Config, version: string, rows: Rows, batch: seq<Job>, env: Env, t: nat)
    requires AllFaithful(cfg, version, rows) && JobsFaithful(cfg, version, batch) && Commits(batch, env, t)
    ensures AllFaithful(cfg, version, AfterBatch(rows, batch, env, t))
            <==> LeftoversFaithful(cfg, version, batch, env, t + 1)
  {
    if LeftoversFaithful(cfg, version, batch, env, t + 1) {
      LeftoversSuffice(cfg, version, rows, batch, env, t + 1);
    } else if AllFaithful(cfg, version, AfterBatch(rows, batch, env, t)) {
      LeftoversNeeded(cfg, version, rows, batch, env, t + 1);
    }
  }

  lemma {:induction false} FineStores(rows: Rows, batch: seq<Job>, n: nat, env: Env, t: nat)
    requires n <= |batch| && forall k :: t <= k < t + n ==> env.fault(k).Fine?
    ensures StoreEach(rows, batch, n, env, t) == StoreAll(rows, batch[..n])
  {
    if n > 0 {
      FineStores(rows, batch, n - 1, env, t);
      assert batch[..n][..n - 1] == batch[..n - 1];
      assert env.fault(t + n - 1).Fine?;
    }
  }

  function StoreAll(rows: Rows, batch: seq<Job>): Rows {
    if batch == [] then rows
    else
      var last := batch[|batch| - 1];
      StoreAll(rows, batch[..|batch| - 1])[last.path := last.row]
  }

  class Index {
    var version: string
    var rows: Rows

    /** A changed extractor version blanks every hash in the same transaction that records the version. */
    method PrepareExtractorVersion(current: string, fault: Fault) returns (ok: bool, refresh: bool)
      modifies this
      ensures !ok ==> version == old(version) && rows == old(rows)
      ensures ok ==> version == current && refresh == (old(version) != current)
      ensures ok ==> rows == if old(version) == current then old(rows) else Blanked(old(rows))
      ensures fault.Fine? ==> ok
    {
      if version == current {
        return true, false;
      }
      if !fault.Fine? {
        return false, false;
      }
      rows := Blanked(rows);
      version := current;
      return true, true;
    }

    /** One batch transaction with a savepoint per file; `t` counts operations. */
    method FlushBatch(cfg: Config, env: Env, batch: seq<Job>, t: nat) returns (indexed: nat, errors: nat, t': nat)
      modifies this`rows
      ensures rows == AfterBatch(old(rows), batch, env, t)
      ensures AllFaithful(cfg, version, old(rows)) && JobsFaithful(cfg, version, batch) && RollsBack(env) ==>
                AllFaithful(cfg, version, rows)
      ensures errors == 0 ==> rows == StoreAll(old(rows), batch) && indexed == |batch|
      ensures errors == 0 <==> batch == [] || forall k :: t <= k < t + |batch| + 2 ==> env.fault(k).Fine?
      ensures t' >= t
    {
      indexed, errors, t' := 0, 0, t;
      if batch == [] {
        return;
      }
      t' := t' + 1;
      if !env.fault(t' - 1).Fine? {
        errors := |batch|;
        assert !env.fault(t).Fine?;
        return;
      }
      var tx := rows;
      for i := 0 to |batch|
        invariant t' == t + 1 + i && rows == old(rows) && tx == StoreEach(old(rows), batch, i, env, t + 1)
        invariant errors == 0 ==> indexed == i
        invariant errors == 0 <==> forall k :: t <= k < t + 1 + i ==> env.fault(k).Fine?
      {
        t' := t' + 1;
        match env.fault(t' - 1)
        case Fine =>
          tx := tx[batch[i].path := batch[i].row];
          indexed := indexed + 1;
        case Unreleased =>
          tx := tx[batch[i].path := batch[i].row];
          errors := errors + 1;
        case Leaves(row) =>
          tx := tx[batch[i].path := row];
          errors := errors + 1;
        case Fails =>
          errors := errors + 1;
      }
      t' := t' + 1;
      if !env.fault(t' - 1).Fine? {
        indexed, errors := 0, errors + |batch|;
        assert !env.fault(t + |batch| + 1).Fine?;
      } else {
        rows := tx;
        if AllFaithful(cfg, version, old(rows)) && JobsFaithful(cfg, version, batch) {
          BatchFaithfulIff(cfg, version, old(rows), batch, env, t);
        }
      }
      if errors == 0 {
        FineStores(old(rows), batch, |batch|, env, t + 1);
        assert batch[..|batch|] == batch;
      }
    }

    /** Phase 1: which files to parse. A file whose content or row cannot be read counts as changed. */
    method Scan(cfg: Config, env: Env, ghost tree: map<Path, Bytes>, t: nat)
      returns (files: seq<Path>, seen: set<Path>, skipped: nat, errors: nat, walkFailed: bool, t': nat)
      ensures forall p :: p in seen <==> Found(p) in env.walk && cfg.detect(p) != ""
      ensures forall p :: p in files ==> p in seen
      ensures walkFailed ==> errors > 0
      ensures Smooth(env) ==> errors == 0
      ensures errors == 0 && Stable(env, tree) ==>
                forall p :: p in seen ==> p in tree && (p in files <==> !Unchanged(cfg, rows, p, tree[p]))
      ensures t' >= t
    {
      files, seen, skipped, errors, walkFailed, t' := [], {}, 0, 0, false, t;
      for k := 0 to |env.walk|
        invariant forall p :: p in seen <==> Found(p) in env.walk[..k] && cfg.detect(p) != ""
        invariant forall p :: p in files ==> p in seen
        invariant walkFailed ==> errors > 0
        invariant Smooth(env) ==> errors == 0
        invariant errors == 0 && Stable(env, tree) ==>
                    forall p :: p in seen ==> p in tree && (p in files <==> !Unchanged(cfg, rows, p, tree[p]))
        invariant t' >= t
      {
        assert env.walk[..k + 1] == env.walk[..k] + [env.walk[k]];
        assert env.walk[k] in env.walk;
        if env.walk[k].Unreadable? {
          errors, walkFailed := errors + 1, true;
          continue;
        }
        var path := env.walk[k].path;
        if cfg.detect(path) == "" {
          continue;
        }
        assert Found(path) in env.walk;
        seen := seen + {path};
        var content := env.read(t', path);
        t' := t' + 2;
        if content.None? || !env.fault(t' - 1).Fine? {
          errors := errors + 1;
          files := files + [path];
        } else if Unchanged(cfg, rows, path, content.value) {
          skipped := skipped + 1;
        } else {
          files := files + [path];
        }
      }
      assert env.walk[..|env.walk|] == env.walk;
    }

    method PurgeStaleFiles(seen: set<Path>, fault: Fault) returns (removed: nat, errors: nat)
      modifies this`rows
      ensures errors == 0 ==> rows == (map p | p in old(rows) && p in seen :: old(rows)[p])
      ensures errors == 0 ==> (removed > 0 <==> exists p :: p in old(rows) && p !in seen)
      ensures errors != 0 ==> rows == old(rows) && removed == 0
      ensures fault.Fine? ==> errors == 0
    {
      var stale := set p | p in rows && p !in seen;
      if stale == {} {
        assert forall p :: p in rows ==> p !in stale;
        assert rows == (map p | p in rows && p in seen :: rows[p]);
        return 0, 0;
      }
      if !fault.Fine? {
        return 0, 1;
      }
      ghost var p :| p in stale;
      assert |stale| >= |{p}| by { assert stale == {p} + (stale - {p}); }
      rows := rows - stale;
      return |stale|, 0;
    }

    /** The pending file that the next worker result is about. */
    method NextFile(n: nat, count: nat) returns (k: nat)
      requires count > 0
      ensures k < count
    {
      k := n % count;
    }

    /** Phase 2: workers read and parse in any order; results are stored in batches. */
    method ParseAndStore(cfg: Config, env: Env, ghost tree: map<Path, Bytes>, files: seq<Path>, t: nat)
      returns (indexed: nat, errors: nat, t': nat)
      modifies this`rows
      ensures AllFaithful(cfg, version, old(rows)) && RollsBack(env) ==> AllFaithful(cfg, version, rows)
      ensures errors == 0 && Stable(env, tree) ==>
                indexed == |files| && Stored(cfg, old(rows), rows, tree, files, [], [])
      ensures Smooth(env) && (forall p :: p in files ==> Found(p) in env.walk) ==> errors == 0
      ensures t' >= t
    {
      indexed, errors, t' := 0, 0, t;
      var pending := files;
      var batch: seq<Job> := [];
      while pending != []
        invariant t' >= t
        invariant JobsFaithful(cfg, version, batch)
        invariant AllFaithful(cfg, version, old(rows)) && RollsBack(env) ==> AllFaithful(cfg, version, rows)
        invariant errors == 0 ==> indexed + |batch| + |pending| == |files|
        invariant forall p :: p in pending ==> p in files
        invariant Smooth(env) && (forall p :: p in files ==> Found(p) in env.walk) ==> errors == 0
        invariant errors == 0 && Stable(env, tree) ==> Stored(cfg, old(rows), rows, tree, files, pending, batch)
        decreases |pending|
      {
        var k := NextFile(env.pick(t'), |pending|);
        var path := pending[k];
        ghost var before := pending;
        pending := pending[..k] + pending[k + 1..];
        var content := env.read(t', path);
        t' := t' + 1;
        if content.None? || !env.fault(t' - 1).Fine? {
          errors := errors + 1;
          continue;
        }
        var job := Job(path, FreshRow(cfg, version, path, content.value));
        FreshFaithful(cfg, version, path, content.value);
        if errors == 0 && Stable(env, tree) {
          TakeStored(cfg, old(rows), rows, tree, files, before, batch, k);
        }
        batch := batch + [job];
        if |batch| >= BATCH_SIZE {
          var stored, failed;
          ghost var rows0 := rows;
          stored, failed, t' := FlushBatch(cfg, env, batch, t');
          indexed, errors := indexed + stored, errors + failed;
          if errors == 0 && Stable(env, tree) {
            FlushStored(cfg, old(rows), rows0, rows, tree, files, pending, batch);
          }
          batch := [];
        }
      }
      var stored, failed;
      ghost var rows0 := rows;
      stored, failed, t' := FlushBatch(cfg, env, batch, t');
      indexed, errors := indexed + stored, errors + failed;
      if errors == 0 && Stable(env, tree) {
        FlushStored(cfg, old(rows), rows0, rows, tree, files, pending, batch);
      }
    }

    /** Walk, purge, parse and store. */
    method WalkAndStore(cfg: Config, env: Env, ghost tree: map<Path, Bytes>)
      returns (indexed: nat, skipped: nat, removed: nat, errors: nat, t: nat)
      modifies this`rows
      ensures AllFaithful(cfg, version, old(rows)) && RollsBack(env) ==> AllFaithful(cfg, version, rows)
      ensures errors == 0 && Stable(env, tree) ==> rows == Refreshed(cfg, version, old(rows), tree)
      ensures errors == 0 && Stable(env, tree) ==> (removed > 0 || indexed > 0 <==> Touched(cfg, old(rows), tree))
      ensures Smooth(env) ==> errors == 0
    {
      var files, seen, walkFailed;
      files, seen, skipped, errors, walkFailed, t := Scan(cfg, env, tree, 1);
      removed := 0;
      if !walkFailed {
        var failed;
        removed, failed := PurgeStaleFiles(seen, env.fault(t));
        errors := errors + failed;
      }
      ghost var purged := rows;
      var failed;
      indexed, failed, t := ParseAndStore(cfg, env, tree, files, t + 1);
      errors := errors + failed;
      if errors == 0 && Stable(env, tree) {
        StoredIsRefreshed(cfg, old(rows), purged, rows, tree, files, seen);
      }
    }

    /** One opIndex run. Whatever fails, rows stay faithful; a run that reports no error over a stable tree ends
        with `Indexed`. */
    method OpIndex(cfg: Config, current: string, env: Env, ghost tree: map<Path, Bytes>) returns (r: Option<Report>)
      modifies this
      ensures r.None? ==> version == old(version) && rows == old(rows)
      ensures r.Some? ==> version == current
      ensures AllFaithful(cfg, old(version), old(rows)) && RollsBack(env) ==> AllFaithful(cfg, version, rows)
      ensures r.Some? && r.value.errors == 0 && Stable(env, tree) ==>
                rows == Indexed(cfg, old(version), current, old(rows), tree)
      ensures Smooth(env) ==> r.Some? && r.value.errors == 0
    {
      var ok, refresh := PrepareExtractorVersion(current, env.fault(0));
      if !ok {
        return None;
      }
      var indexed, skipped, removed, errors, t := WalkAndStore(cfg, env, tree);
      if refresh || removed > 0 || indexed > 0 {
        if env.fault(t).Fine? {
          if AllFaithful(cfg, version, rows) { ResolveFaithful(cfg, version, rows); }
          rows := Resolve(cfg, rows);
        } else {
          errors := errors + 1;
        }
      }
      r := Some(Report(indexed, skipped, removed, errors));
    }

    lemma StoredIsRefreshed(cfg: Config, start: Rows, purged: Rows, now: Rows, tree: map<Path, Bytes>,
                            files: seq<Path>, seen: set<Path>)
      requires forall p :: p in seen <==> p in tree && cfg.detect(p) != ""
      requires forall p :: p in files ==> p in seen
      requires forall p :: p in seen ==> (p in files <==> !Unchanged(cfg, start, p, tree[p]))
      requires purged == (map p | p in start && p in seen :: start[p])
      requires Stored(cfg, purged, now, tree, files, [], [])
      ensures now == Refreshed(cfg, version, start, tree)
      ensures |files| > 0 <==> exists p :: p in tree && cfg.detect(p) != "" && !Unchanged(cfg, start, p, tree[p])
    {
      var refreshed := Refreshed(cfg, version, start, tree);
      forall p ensures p in now <==> p in refreshed { }
      forall p | p in now ensures now[p] == refreshed[p] { }
      if |files| > 0 { assert files[0] in files; }
    }

    /** Any number of runs, by any extractor versions and under any failures but failing rollbacks. */
    method Runs(cfg: Config, versions: seq<string>, envs: seq<Env>)
      requires |versions| == |envs| && AllFaithful(cfg, version, rows)
      modifies this
      ensures (forall e :: 0 <= e < |envs| ==> RollsBack(envs[e])) ==> AllFaithful(cfg, version, rows)
    {
      for k := 0 to |envs|
        invariant (forall e :: 0 <= e < |envs| ==> RollsBack(envs[e])) ==> AllFaithful(cfg, version, rows)
      {
        var _ := OpIndex(cfg, versions[k], envs[k], map[]);
      }
    }

    /** Progress of an error-free pass: each file is stored, in the batch, or pending; nothing else has changed. */
    ghost predicate Stored(cfg: Config, before: Rows, now: Rows, tree: map<Path, Bytes>, files: seq<Path>,
                           pending: seq<Path>, batch: seq<Job>)
      reads this`version
    {
      && (forall p :: p in pending ==> p in files)
      && (forall j :: j in batch ==>
            j.path in files && j.path in tree && j.row == FreshRow(cfg, version, j.path, tree[j.path]))
      && (forall p :: p !in files ==> (p in now <==> p in before) && (p in now ==> now[p] == before[p]))
      && (forall p :: p in files ==>
            || p in pending || InBatch(batch, p)
            || (p in tree && p in now && now[p] == FreshRow(cfg, version, p, tree[p])))
    }

    lemma TakeStored(cfg: Config, before: Rows, now: Rows, tree: map<Path, Bytes>, files: seq<Path>,
                     pending: seq<Path>, batch: seq<Job>, k: nat)
      requires Stored(cfg, before, now, tree, files, pending, batch) && k < |pending| && pending[k] in tree
      ensures var job := Job(pending[k], FreshRow(cfg, version, pending[k], tree[pending[k]]));
              Stored(cfg, before, now, tree, files, pending[..k] + pending[k + 1..], batch + [job])
    {
      var p0, rest := pending[k], pending[..k] + pending[k + 1..];
      var job := Job(p0, FreshRow(cfg, version, p0, tree[p0]));
      assert forall p :: p in pending <==> p in rest || p == p0;
      assert job in batch + [job];
      forall p | InBatch(batch, p) ensures InBatch(batch + [job], p) {
        var j :| j in batch && j.path == p;
        assert j in batch + [job];
      }
    }

    lemma FlushStored(cfg: Config, before: Rows, now: Rows, now': Rows, tree: map<Path, Bytes>, files: seq<Path>,
                      pending: seq<Path>, batch: seq<Job>)
      requires Stored(cfg, before, now, tree, files, pending, batch) && now' == StoreAll(now, batch)
      ensures Stored(cfg, before, now', tree, files, pending, [])
    {
      forall p ensures (p in now' <==> InBatch(batch, p) || p in now) {
        StoreAllAt(now, batch, p);
      }
      forall p | p in now' ensures if InBatch(batch, p) then Job(p, now'[p]) in batch else now'[p] == now[p] {
        StoreAllAt(now, batch, p);
      }
    }
  }

  ghost predicate InBatch(batch: seq<Job>, p: Path) {
    exists j :: j in batch && j.path == p
  }

  lemma {:induction false} StoreAllAt(rows: Rows, batch: seq<Job>, p: Path)
    ensures p in StoreAll(rows, batch) <==> InBatch(batch, p) || p in rows
    ensures InBatch(batch, p) ==> Job(p, StoreAll(rows, batch)[p]) in batch
    ensures !InBatch(batch, p) && p in rows ==> StoreAll(rows, batch)[p] == rows[p]
  {
    if batch != [] {
      var n := |batch| - 1;
      StoreAllAt(rows, batch[..n], p);
      assert forall j :: j in batch <==> j in batch[..n] || j == batch[n];
      assert InBatch(batch, p) <==> InBatch(batch[..n], p) || batch[n].path == p;
    }
  }

  lemma FreshFaithful(cfg: Config, version: string, path: Path, bytes: Bytes)
    ensures Faithful(cfg, version, FreshRow(cfg, version, path, bytes))
  {
    assert StoresParseOf(cfg, version, FreshRow(cfg, version, path, bytes), bytes);
  }

  /** The new hash over fewer facts than the parse is not faithful, and no later error-free run over the same content
      repairs it. */
  lemma FailedRollbackPersists(cfg: Config, current: string, rows: Rows, tree: map<Path, Bytes>, p: Path)
    requires Lawful(cfg) && p in rows && p in tree && cfg.detect(p) != ""
    requires rows[p].hash == cfg.digest(tree[p]) && rows[p].lang == cfg.detect(p)
    requires |rows[p].facts| < |cfg.parse(current, cfg.detect(p), tree[p])|
    ensures !Faithful(cfg, current, rows[p])
    ensures var after := Indexed(cfg, current, current, rows, tree);
            && p in after && after[p].hash == rows[p].hash && |after[p].facts| == |rows[p].facts|
            && !Faithful(cfg, current, after[p])
  {
    forall row: Row, b | row.hash == cfg.digest(tree[p]) && row.lang == cfg.detect(p) && |row.facts| == |rows[p].facts|
      ensures !StoresParseOf(cfg, current, row, b)
    {
      assert row.hash == cfg.digest(b) ==> b == tree[p];
    }
    assert Unchanged(cfg, rows, p, tree[p]);
  }

  /** A batch over the one file whose store fails in the middle and whose rollback fails too. */
  function RollbackFails(): Env {
    Env([], (t, p) => None, t => if t == 1 then Leaves(Row("#A", "cpp", [])) else Fine, t => 0)
  }

  /** A run over the same file in which nothing fails. */
  function NothingFails(): Env {
    Env([Found("a.cpp")], (t, p) => if p == "a.cpp" then Some("A") else None, t => Fine, t => 0)
  }

  lemma LeftRow()
    ensures AfterBatch(map[], [Job("a.cpp", FreshRow(Example(), "10", "a.cpp", "A"))], RollbackFails(), 0)
            == map["a.cpp" := Row("#A", "cpp", [])]
  {
    var batch := [Job("a.cpp", FreshRow(Example(), "10", "a.cpp", "A"))];
    assert StoreEach(map[], batch, 0, RollbackFails(), 1) == map[];
  }

  lemma NothingFailsIsSmooth()
    ensures Smooth(NothingFails()) && Stable(NothingFails(), ONLY_A)
  {
  }

  /** A failing rollback commits the new hash over partial facts, and a later run in which nothing fails keeps them. */
  method FailedRollbackRun() returns (ix: Index, stored: Rows, r: Option<Report>)
    ensures Lawful(Example()) && "a.cpp" in stored && !Faithful(Example(), "10", stored["a.cpp"])
    ensures Smooth(NothingFails()) && Stable(NothingFails(), ONLY_A)
    ensures r.Some? && r.value.errors == 0 && "a.cpp" in ix.rows && !Faithful(Example(), "10", ix.rows["a.cpp"])
  {
    ExampleLawful();
    NothingFailsIsSmooth();
    LeftRow();
    ix := new Index;
    ix.version, ix.rows := "10", map[];
    var job := Job("a.cpp", FreshRow(Example(), "10", "a.cpp", "A"));
    var indexed, errors, t := ix.FlushBatch(Example(), RollbackFails(), [job], 0);
    stored := ix.rows;
    FailedRollbackPersists(Example(), "10", stored, ONLY_A, "a.cpp");
    r := ix.OpIndex(Example(), "10", NothingFails(), ONLY_A);
  }
}
