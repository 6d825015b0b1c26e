/** One frame of the user interface (`Ui::render` and the views' `render`), without what is painted: the store is
    asked for the present window, and the active view's sparkline and table collect from it. */
module Frame {
  import opened Types
  import opened Clock
  import opened Traffic
  import opened Timeline
  import opened StoreSpec
  import opened Store
  import opened FilterLang
  import opened ViewFilter
  import opened SparklineSpec
  import opened Sparkline
  import opened SocketTableSpec
  import opened SocketTable
  import opened EditorSpec
  import FilterParser
  import opened UiSpec
  import opened Ui

  /** Rows are exact for two filters over the windows of the deque within the collection window. */
  ghost predicate TableIsExact(rows: seq<Entry>, collectionWindow: nat, rateWindow: nat, retained: History, window: nat,
                               at: nat, filter: Filter, custom: Option<Expr>, k: nat, cache: Cache)
  {
    && 0 < window < U64 && k <= |retained| && Lists(rows, cache)
    && var ts := Trunc(at, window);
       && CacheFor(cache, retained, k, |retained|, Query(filter, custom, RateUntil(ts, rateWindow, window)))
       && forall j | 0 <= j < |retained| :: k <= j <==> ts <= retained[j].ts + collectionWindow
  }

  /** A frame creates the missing windows and brings the sparkline up to date, paused or not; unless paused, the table
      becomes exact for the filter being edited, or else the committed one. */
  method Draw(ui: Ui, sparkline: TrafficSparkline, table: Table, store: Store, now: nat, ghost seen: History, ghost lens: Lenses)
    returns (ts: nat, ghost k: nat, ghost cache: Cache)
    requires ui.Valid() && store.Valid() && sparkline.reverseBuffer == []
    requires sparkline.filter == ui.view.Sparkline() && table.filter == ui.view.table.filter
    requires Regular(seen, store.window) && Extends(seen, store.history)
    requires sparkline.dataset == Mixed(LastN(MaxLen(store.capacity), seen), lens)
    modifies ui`dirty, ui.view.table`dataset, sparkline`dataset, sparkline`reverseBuffer, table, store
    ensures ui.Valid() && ui.State() == UiRender(old(ui.State()), table.dataset)
    ensures store.Valid() && store.logs == SeqStep(store.window, old(store.logs), Op(now, []))
    ensures store.logs != [] && ts == Timeline.Newest(store.logs).ts
    ensures sparkline.dataset == Mixed(store.retained, Keep(seen, lens, Lens(InterestOf(ui.filter), if ui.custom == None then None else Some(ui.custom.value.interpretor))))
    ensures sparkline.reverseBuffer == []
    ensures ui.paused ==> table.dataset == old(table.dataset)
    ensures !ui.paused ==> TableIsExact(table.dataset, table.collectionWindow, table.rateWindow, store.retained,
                                        store.window, ts, ui.filter, EditorSpec.Shown(ui.view.table.filterView.State()), k, cache)
  {
    hide Coherent;
    hide UiOk;
    hide Mixed;
    hide Regular;
    hide TableIsExact;
    hide SeqStep;
    ghost var before := store.history;
    UiFilters(ui.lit, ui.State());
    ts := store.OldestTimestamp(now);
    ExtendsTransitive(seen, before, store.history);
    hide Extends;
    ghost var lens' := Keep(seen, lens, Lens(InterestOf(ui.filter), if ui.custom == None then None else Some(ui.custom.value.interpretor)));
    k, cache := CollectViews(sparkline, table, store, ts, ui, seen, lens);
    assert sparkline.dataset == Mixed(store.retained, lens');
    ui.Render(table.dataset);
  }

  /** The views' part of a frame. */
  method CollectViews(sparkline: TrafficSparkline, table: Table, store: Store, ts: nat, ui: Ui, ghost seen: History, ghost lens: Lenses)
    returns (ghost k: nat, ghost cache: Cache)
    requires store.Valid() && sparkline.reverseBuffer == []
    requires sparkline.filter == ui.filter && table.filter == ui.filter
    requires Regular(seen, store.window) && Extends(seen, store.history)
    requires sparkline.dataset == Mixed(LastN(MaxLen(store.capacity), seen), lens)
    modifies sparkline`dataset, sparkline`reverseBuffer, table
    ensures store.Valid()
    ensures sparkline.dataset == Mixed(store.retained, Keep(seen, lens, Lens(InterestOf(ui.filter), if ui.custom == None then None else Some(ui.custom.value.interpretor))))
    ensures sparkline.reverseBuffer == []
    ensures ui.paused ==> table.dataset == old(table.dataset)
    ensures !ui.paused ==> TableIsExact(table.dataset, table.collectionWindow, table.rateWindow, store.retained,
                                        store.window, ts, ui.filter, EditorSpec.Shown(ui.view.table.filterView.State()), k, cache)
  {
    hide Coherent;
    hide Mixed;
    hide Regular;
    hide Extends;
    hide CacheFor;
    hide Lists;
    hide RateStart;
    hide Trunc;
    assert 0 < store.window < U64 by { CoherentWindow(store.window, store.capacity, store.history, store.logs, store.retained); }
    sparkline.Collect(store, InterpretorOf(ui.custom), seen, lens);
    k, cache := 0, map[];
    if !ui.paused {
      var custom := ui.view.table.filterView.Interpretor();
      k, cache := table.Collect(ts, store, custom);
    }
  }

  lemma UiFilters(lit: FilterParser.IpSyntax, s: UiState)
    requires UiOk(lit, s)
    ensures s.table.filter == s.filter && s.sparkline == s.filter
  {
  }
}
