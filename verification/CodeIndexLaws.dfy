/** What the kind pass and the test for changes of the incremental index mean (tools/codegraph/db.go, operations.go). */
module CodeIndexLaws {
  import opened CodeIndex

  /** The pass turns functions into methods where their scope has an owner, and changes nothing else, also when it is
      repeated. */
  lemma PromotionIsNarrow(cfg: Config, rows: Rows, sym: Symbol)
    ensures var r := ResolveSymbol(cfg, rows, sym);
            && r == sym.(kind := r.kind)
            && (r.kind != sym.kind ==> sym.kind == "function" && r.kind == "method" && HasOwner(cfg, rows, sym.scope))
            && (sym.kind == "function" && sym.scope != "" && HasOwner(cfg, rows, sym.scope) ==> r.kind == "method")
            && ResolveSymbol(cfg, rows, r) == r
  {
    var r := ResolveSymbol(cfg, rows, sym);
    assert "function" != "method";
    if Promotable(sym) && HasOwner(cfg, rows, sym.scope) {
      assert r.kind == "method" && !Promotable(r);
    }
  }

  /** A file counts as touched exactly when refreshing the rows does not give them back as they are. */
  lemma TouchedIff(cfg: Config, version: string, rows: Rows, tree: map<Path, Bytes>)
    ensures Touched(cfg, rows, tree) <==> Refreshed(cfg, version, rows, tree) != rows
  {
    var refreshed := Refreshed(cfg, version, rows, tree);
    if !Touched(cfg, rows, tree) {
      forall p ensures p in refreshed <==> p in rows {
        assert p in tree && cfg.detect(p) != "" ==> Unchanged(cfg, rows, p, tree[p]);
      }
      assert refreshed == rows;
    }
    if refreshed == rows {
      forall p | p in tree && cfg.detect(p) != "" ensures Unchanged(cfg, rows, p, tree[p]) {
        assert p in refreshed && refreshed[p] == rows[p];
      }
      forall p | p in rows ensures p in tree && cfg.detect(p) != "" {
        assert p in refreshed;
      }
    }
  }
}
