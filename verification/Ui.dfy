/** The table view and the user interface, changed in place. */
module Ui {
  import opened Types
  import opened FilterParser
  import opened ViewFilter
  import opened SocketTableSpec
  import opened EditorSpec
  import opened FilterEditor
  import opened UiSpec

  class SocketTableView {
    const filter: Filter
    const filterView: FilterView
    var dataset: seq<Entry>
    var selected: Option<nat>

    ghost function State(): TableView
      reads this, filterView
    {
      TableView(filter, dataset, selected, filterView.State())
    }

    constructor (lit: IpSyntax, filter: Filter, custom: Option<CustomFilter>)
      ensures fresh(filterView) && filterView.lit == lit
      ensures State() == TableView(filter, [], None, WithFilter(custom))
    {
      this.filter := filter;
      filterView := new FilterView(lit, custom);
      dataset := [];
      selected := None;
    }

    method MoveDown()
      modifies this`selected
      ensures selected == MovedDown(|dataset|, old(selected))
      ensures MovesDown(|dataset|, old(selected), selected)
    {
      if |dataset| == 0 {
        selected := None;
      } else if selected == None {
        selected := Some(0);
      } else {
        var next, last := selected.value + 1, |dataset| - 1;
        selected := Some(if next <= last then next else last);
      }
    }

    method MoveUp()
      modifies this`selected
      ensures selected == MovedUp(|dataset|, old(selected))
      ensures MovesUp(|dataset|, old(selected), selected)
    {
      if |dataset| == 0 || selected == None {
        selected := None;
      } else {
        var previous, last := if selected.value == 0 then 0 else selected.value - 1, |dataset| - 1;
        selected := Some(if previous <= last then previous else last);
      }
    }

    /** The selected row, unless the rows have become fewer since it was selected. */
    method Selected() returns (r: Option<Entry>)
      ensures r == SelectedEntry(dataset, selected)
      ensures r.Some? <==> selected.Some? && selected.value < |dataset|
      ensures r.Some? ==> r.value == dataset[selected.value]
    {
      r := None;
      if selected.Some? && selected.value < |dataset| {
        r := Some(dataset[selected.value]);
      }
    }

    method HandleEvent(event: Event, typed: Typed) returns (r: Option<UiEvent>)
      modifies filterView
      ensures (State(), r) == TableHandle(filterView.lit, old(State()), event, typed)
    {
      if filterView.editing {
        r := filterView.HandleEvent(event, typed);
      } else if IsChar(event, '/') {
        filterView.SetEditing();
        r := Some(Change);
      } else {
        r := None;
      }
    }
  }

  /** `RootView` with its table; the main view's sparkline has no filter. */
  datatype RootView =
    | Main(table: SocketTableView)
    | ProcessView(pid: u32, sparkline: Filter, table: SocketTableView)
    | RemoteIpView(ip: StdIp, sparkline: Filter, table: SocketTableView)
  {
    function Sparkline(): Filter {
      if Main? then NoFilter else sparkline
    }

    function Root(): Root {
      match this
      case Main(_) => MainRoot
      case ProcessView(pid, _, _) => ProcessRoot(pid)
      case RemoteIpView(ip, _, _) => RemoteIpRoot(ip)
    }
  }

  method AskSelectedProcess(table: SocketTableView) returns (r: Option<UiEvent>)
    ensures r == AskProcess(table.State())
  {
    var entry := table.Selected();
    r := if entry.Some? then Some(SelectProcess(entry.value.pid)) else None;
  }

  method AskSelectedRemoteIp(table: SocketTableView) returns (r: Option<UiEvent>)
    ensures r == AskRemoteIp(table.State())
  {
    var entry := table.Selected();
    r := if entry.Some? then Some(SelectRemoteIp(entry.value.socket.remote.ip)) else None;
  }

  method MainKeys(table: SocketTableView, event: Event) returns (r: Option<UiEvent>)
    modifies table`selected
    ensures (table.State(), r) == RootKeys(MainRoot, old(table.State()), event)
  {
    r := None;
    if event.KeyPress? {
      if event.key == Up || event.key == Char('k') {
        table.MoveUp();
        r := Some(Change);
      } else if event.key == Down || event.key == Char('j') {
        table.MoveDown();
        r := Some(Change);
      } else if event.key == Char('p') || event.key == Enter {
        r := AskSelectedProcess(table);
      } else if event.key == Char('r') {
        r := AskSelectedRemoteIp(table);
      }
    }
  }

  method RemoteIpKeys(ip: StdIp, table: SocketTableView, event: Event) returns (r: Option<UiEvent>)
    modifies table`selected
    ensures (table.State(), r) == RootKeys(RemoteIpRoot(ip), old(table.State()), event)
  {
    r := None;
    if event.KeyPress? {
      if event.key == Char('q') || event.key == Backspace {
        r := Some(Back);
      } else if event.key == Up || event.key == Char('k') {
        table.MoveUp();
        r := Some(Change);
      } else if event.key == Down || event.key == Char('j') {
        table.MoveDown();
        r := Some(Change);
      } else if event.key == Char('p') || event.key == Enter {
        r := AskSelectedProcess(table);
      }
    }
  }

  method ProcessKeys(pid: u32, table: SocketTableView, event: Event) returns (r: Option<UiEvent>)
    modifies table`selected
    ensures (table.State(), r) == RootKeys(ProcessRoot(pid), old(table.State()), event)
  {
    r := None;
    if event.KeyPress? {
      if event.key == Char('q') || event.key == Backspace {
        r := Some(Back);
      } else if event.key == Up || event.key == Char('k') {
        table.MoveUp();
        r := Some(Change);
      } else if event.key == Down || event.key == Char('j') {
        table.MoveDown();
        r := Some(Change);
      } else if event.key == Char('r') {
        r := AskSelectedRemoteIp(table);
      }
    }
  }

  /** `RootView::handle_event` */
  method RootEvent(view: RootView, event: Event, typed: Typed) returns (r: Option<UiEvent>)
    modifies view.table, view.table.filterView
    ensures (view.table.State(), r)
         == RootHandle(view.table.filterView.lit, view.Root(), old(view.table.State()), event, typed)
  {
    r := view.table.HandleEvent(event, typed);
    if r.Some? { return; }
    match view {
      case Main(table) => r := MainKeys(table, event);
      case ProcessView(pid, _, table) => r := ProcessKeys(pid, table, event);
      case RemoteIpView(ip, _, table) => r := RemoteIpKeys(ip, table, event);
    }
  }

  class Ui {
    const lit: IpSyntax
    var paused: bool
    var dirty: bool
    var filter: Filter
    var custom: Option<CustomFilter>
    var view: RootView

    ghost predicate Valid()
      reads this, view.table, view.table.filterView
    {
      view.table.filterView.lit == lit && UiOk(lit, State())
    }

    ghost function State(): UiState
      reads this, view.table, view.table.filterView
    {
      UiState(paused, dirty, filter, custom, view.Root(), view.Sparkline(), view.table.State())
    }

    constructor (lit: IpSyntax)
      ensures Valid() && State() == UiStart()
      ensures this.lit == lit && fresh(view.table) && fresh(view.table.filterView)
    {
      this.lit := lit;
      paused := false;
      dirty := true;
      filter := NoFilter;
      custom := None;
      var table := new SocketTableView(lit, NoFilter, None);
      view := Main(table);
    }

    method UpdateView()
      modifies this`view
      ensures view.table.filterView.lit == lit && fresh(view.table) && fresh(view.table.filterView)
      ensures view.Root() == RootFor(filter) && view.Sparkline() == filter
      ensures view.table.State() == TableView(filter, [], None, WithFilter(custom))
    {
      var table := new SocketTableView(lit, filter, custom);
      match filter {
        case NoFilter => view := Main(table);
        case Process(pid) => view := ProcessView(pid, filter, table);
        case RemoteAddress(ip) => view := RemoteIpView(ip, filter, table);
      }
    }

    method UpdateFilter(target: Filter)
      requires view.table.filterView.lit == lit
      modifies this`filter, this`view
      ensures view.table.filterView.lit == lit
      ensures State() == Navigate(old(State()), target)
      ensures view == old(view) || (fresh(view.table) && fresh(view.table.filterView))
    {
      if filter != target {
        filter := target;
        UpdateView();
      }
    }

    /** `Ui::handle_event` */
    method HandleEvent(event: Event, typed: Typed) returns (r: Option<UiEvent>)
      requires Valid()
      modifies this, view.table, view.table.filterView
      ensures Valid()
      ensures (State(), r) == UiHandle(lit, old(State()), event, typed)
      ensures Abs(State()) == SeenHandle(lit, Abs(old(State())), event, typed)
      ensures view == old(view) || (fresh(view.table) && fresh(view.table.filterView))
    {
      ghost var before := State();
      var e := RootEvent(view, event, typed);
      r := Act(e, event);
      StepOk(lit, before, event, typed);
    }

    method Act(e: Option<UiEvent>, event: Event) returns (r: Option<UiEvent>)
      requires view.table.filterView.lit == lit
      modifies this
      ensures view.table.filterView.lit == lit
      ensures (State(), r) == Respond(old(State()), e, event)
      ensures view == old(view) || (fresh(view.table) && fresh(view.table.filterView))
    {
      if e.Some? {
        dirty := true;
        match e.value {
          case SelectRemoteIp(ip) => UpdateFilter(RemoteAddress(ip));
          case SelectProcess(pid) => UpdateFilter(Process(pid));
          case Back => UpdateFilter(NoFilter);
          case SetCustomFilter(filter) => custom := filter;
          case _ => return e;
        }
        return None;
      }
      if IsChar(event, 'q') { return Some(Quit); }
      if IsChar(event, ' ') {
        dirty := true;
        paused := !paused;
        return Some(Change);
      }
      r := None;
    }

    /** `Ui::render` as far as the state goes: `collected` is what the table collects. */
    method Render(collected: seq<Entry>)
      requires Valid()
      modifies this`dirty, view.table`dataset
      ensures Valid() && State() == UiRender(old(State()), collected)
      ensures Abs(State()) == SeenStep(lit, Abs(old(State())), Input.Render(collected))
      ensures !dirty && view.table.dataset == if paused then old(view.table.dataset) else collected
    {
      dirty := false;
      if !paused {
        view.table.dataset := collected;
      }
    }
  }

  lemma StepOk(lit: IpSyntax, s: UiState, event: Event, typed: Typed)
    requires UiOk(lit, s)
    ensures var s' := UiHandle(lit, s, event, typed).0;
            UiOk(lit, s') && Abs(s') == SeenHandle(lit, Abs(s), event, typed)
  {
    hide UiHandle;
    hide SeenHandle;
    if s.table.editor.editing { EditStep(lit, s, event, typed); } else { IdleStep(lit, s, event, typed); }
  }
}
