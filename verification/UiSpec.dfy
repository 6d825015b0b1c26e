/** The user interface (`ptraf/src/ui.rs`) as a machine on values, and a reference machine that keeps only
    texts: what is typed and what was accepted. */
module UiSpec {
  import opened Types
  import opened Traffic
  import opened FilterLang
  import opened FilterParser
  import opened ViewFilter
  import opened SocketTableSpec
  import opened EditorSpec

  /** `SocketTableView`: its own filter, the rows of the last collection, the selected row, the editor. */
  datatype TableView = TableView(filter: Filter, dataset: seq<Entry>, selected: Option<nat>, editor: Editor)

  datatype Root = MainRoot | ProcessRoot(pid: u32) | RemoteIpRoot(ip: StdIp)

  /** `sparkline` is the filter that the root view gave its sparkline. */
  datatype UiState = UiState(
    paused: bool,
    dirty: bool,
    filter: Filter,
    custom: Option<CustomFilter>,
    root: Root,
    sparkline: Filter,
    table: TableView)

  // ---- The table view ----

  function SelectedEntry(dataset: seq<Entry>, selected: Option<nat>): Option<Entry> {
    if selected.Some? && selected.value < |dataset| then Some(dataset[selected.value]) else None
  }

  function MovedDown(rows: nat, selected: Option<nat>): Option<nat> {
    if rows == 0 then None
    else if selected == None then Some(0)
    else Some(if selected.value + 1 < rows then selected.value + 1 else rows - 1)
  }

  function MovedUp(rows: nat, selected: Option<nat>): Option<nat> {
    if rows == 0 || selected == None then None
    else
      var up := if selected.value == 0 then 0 else selected.value - 1;
      Some(if up < rows then up else rows - 1)
  }

  /** One row down, from no selection to the first row, and never past the last one. */
  predicate MovesDown(rows: nat, before: Option<nat>, after: Option<nat>) {
    && (after == None <==> rows == 0)
    && (rows > 0 && before == None ==> after == Some(0))
    && (before.Some? && before.value + 1 < rows ==> after == Some(before.value + 1))
    && (before.Some? && rows > 0 && before.value + 1 >= rows ==> after == Some(rows - 1))
  }

  /** One row up, and never past the first one; a selection beyond the rows comes back to the last one. */
  predicate MovesUp(rows: nat, before: Option<nat>, after: Option<nat>) {
    && (after == None <==> rows == 0 || before == None)
    && (before == Some(0) && rows > 0 ==> after == Some(0))
    && (before.Some? && 0 < before.value <= rows ==> after == Some(before.value - 1))
    && (before.Some? && rows > 0 && before.value > rows ==> after == Some(rows - 1))
  }

  predicate IsKey(event: Event, key: Key) {
    event.KeyPress? && event.key == key
  }

  predicate IsChar(event: Event, c: char) {
    IsKey(event, Char(c))
  }

  function TableHandle(lit: IpSyntax, v: TableView, event: Event, typed: Typed): (TableView, Option<UiEvent>) {
    if v.editor.editing then
      var (editor, r) := EditorHandle(lit, v.editor, event, typed);
      (v.(editor := editor), r)
    else if IsChar(event, '/') then (v.(editor := Opened(v.editor)), Some(Change))
    else (v, None)
  }

  function AskProcess(v: TableView): Option<UiEvent> {
    var entry := SelectedEntry(v.dataset, v.selected);
    if entry.Some? then Some(SelectProcess(entry.value.pid)) else None
  }

  function AskRemoteIp(v: TableView): Option<UiEvent> {
    var entry := SelectedEntry(v.dataset, v.selected);
    if entry.Some? then Some(SelectRemoteIp(entry.value.socket.remote.ip)) else None
  }

  /** The keys that a root view handles itself, when its table view returned nothing. */
  function RootKeys(root: Root, v: TableView, event: Event): (TableView, Option<UiEvent>) {
    if !root.MainRoot? && (IsChar(event, 'q') || IsKey(event, Backspace)) then (v, Some(Back))
    else if IsKey(event, Up) || IsChar(event, 'k') then
      (v.(selected := MovedUp(|v.dataset|, v.selected)), Some(Change))
    else if IsKey(event, Down) || IsChar(event, 'j') then
      (v.(selected := MovedDown(|v.dataset|, v.selected)), Some(Change))
    else if !root.ProcessRoot? && (IsChar(event, 'p') || IsKey(event, Enter)) then (v, AskProcess(v))
    else if !root.RemoteIpRoot? && IsChar(event, 'r') then (v, AskRemoteIp(v))
    else (v, None)
  }

  function RootHandle(lit: IpSyntax, root: Root, v: TableView, event: Event, typed: Typed)
    : (TableView, Option<UiEvent>)
  {
    var (v', r) := TableHandle(lit, v, event, typed);
    if r.Some? then (v', r) else RootKeys(root, v', event)
  }

  // ---- The whole interface ----

  function RootFor(filter: Filter): Root {
    match filter
    case NoFilter => MainRoot
    case Process(pid) => ProcessRoot(pid)
    case RemoteAddress(ip) => RemoteIpRoot(ip)
  }

  /** `update_filter` and `update_view`: a view is rebuilt only for another filter. */
  function Navigate(s: UiState, filter: Filter): UiState {
    if s.filter == filter then s
    else s.(filter := filter, root := RootFor(filter), sparkline := filter,
            table := TableView(filter, [], None, WithFilter(s.custom)))
  }

  /** What `Ui::handle_event` does once the root view has returned. */
  function Respond(s: UiState, r: Option<UiEvent>, event: Event): (UiState, Option<UiEvent>) {
    match r
    case Some(e) => (
      var s := s.(dirty := true);
      match e
      case SelectRemoteIp(ip) => (Navigate(s, RemoteAddress(ip)), None)
      case SelectProcess(pid) => (Navigate(s, Process(pid)), None)
      case Back => (Navigate(s, NoFilter), None)
      case SetCustomFilter(custom) => (s.(custom := custom), None)
      case _ => (s, Some(e)))
    case None =>
      if IsChar(event, 'q') then (s, Some(Quit))
      else if IsChar(event, ' ') then (s.(dirty := true, paused := !s.paused), Some(Change))
      else (s, None)
  }

  function UiHandle(lit: IpSyntax, s: UiState, event: Event, typed: Typed): (UiState, Option<UiEvent>) {
    var (table, r) := RootHandle(lit, s.root, s.table, event, typed);
    Respond(s.(table := table), r, event)
  }

  /** Drawing: the table is collected anew unless paused. */
  function UiRender(s: UiState, collected: seq<Entry>): UiState {
    s.(dirty := false, table := if s.paused then s.table else s.table.(dataset := collected))
  }

  datatype Input = Handle(event: Event, typed: Typed) | Render(collected: seq<Entry>)

  function UiStep(lit: IpSyntax, s: UiState, i: Input): UiState {
    match i
    case Handle(event, typed) => UiHandle(lit, s, event, typed).0
    case Render(collected) => UiRender(s, collected)
  }

  function UiStart(): UiState {
    UiState(false, true, NoFilter, None, MainRoot, NoFilter, TableView(NoFilter, [], None, WithFilter(None)))
  }

  function UiRun(lit: IpSyntax, inputs: seq<Input>): UiState {
    if inputs == [] then UiStart()
    else UiStep(lit, UiRun(lit, inputs[..|inputs| - 1]), inputs[|inputs| - 1])
  }

  // ---- The reference machine ----

  /** What a user sees: `text` is the accepted filter text, `edit` the line being edited. */
  datatype Seen = Seen(paused: bool, filter: Filter, text: string, edit: Option<string>,
                       dataset: seq<Entry>, selected: Option<nat>)

  /** Another view starts with no rows, nothing selected and the editor closed; the text stays. */
  function GoTo(s: Seen, filter: Filter): Seen {
    Seen(s.paused, filter, s.text, None, [], None)
  }

  function SeenHandle(lit: IpSyntax, s: Seen, event: Event, typed: Typed): Seen {
    var entry := SelectedEntry(s.dataset, s.selected);
    if s.edit.Some? then
      if Cancels(event) then s.(edit := None)
      else if !Accepts(event) then if typed.modified then s.(edit := Some(FirstLine(typed.lines))) else s
      else if Acceptable(lit, s.edit.value) then s.(text := s.edit.value, edit := None)
      else if event.key == Enter && !s.filter.Process? && entry.Some? then GoTo(s, Process(entry.value.pid))
      else s
    else if event.OtherEvent? then s
    else
      match event.key
      case Up => s.(selected := MovedUp(|s.dataset|, s.selected))
      case Down => s.(selected := MovedDown(|s.dataset|, s.selected))
      case Enter => if entry.Some? && !s.filter.Process? then GoTo(s, Process(entry.value.pid)) else s
      case Backspace => if s.filter.NoFilter? then s else GoTo(s, NoFilter)
      case Char(c) =>
        if c == '/' then s.(edit := Some(s.text))
        else if c == ' ' then s.(paused := !s.paused)
        else if c == 'q' then if s.filter.NoFilter? then s else GoTo(s, NoFilter)
        else if c == 'k' then s.(selected := MovedUp(|s.dataset|, s.selected))
        else if c == 'j' then s.(selected := MovedDown(|s.dataset|, s.selected))
        else if c == 'p' && entry.Some? && !s.filter.Process? then GoTo(s, Process(entry.value.pid))
        else if c == 'r' && entry.Some? && !s.filter.RemoteAddress? then
          GoTo(s, RemoteAddress(entry.value.socket.remote.ip))
        else s
      case _ => s
  }

  function SeenStep(lit: IpSyntax, s: Seen, i: Input): Seen {
    match i
    case Handle(event, typed) => SeenHandle(lit, s, event, typed)
    case Render(collected) => if s.paused then s else s.(dataset := collected)
  }

  function SeenRun(lit: IpSyntax, inputs: seq<Input>): Seen {
    if inputs == [] then Seen(false, NoFilter, "", None, [], None)
    else SeenStep(lit, SeenRun(lit, inputs[..|inputs| - 1]), inputs[|inputs| - 1])
  }

  function Abs(s: UiState): Seen {
    var ed := s.table.editor;
    Seen(s.paused, s.filter, Content(s.custom), if ed.editing then Some(FirstLine(ed.lines)) else None,
         s.table.dataset, s.table.selected)
  }

  /** The interface's filter is the active view's, the view is the one for the interface's filter, and
      nothing cached differs from what the texts say. */
  predicate UiOk(lit: IpSyntax, s: UiState) {
    && s.custom == s.table.editor.committed
    && s.root == RootFor(s.filter) && s.table.filter == s.filter && s.sparkline == s.filter
    && EditorOk(lit, s.table.editor)
  }

  // ---- While editing ----

  lemma EditResult(lit: IpSyntax, root: Root, v: TableView, event: Event, typed: Typed)
    requires v.editor.editing
    ensures RootHandle(lit, root, v, event, typed) ==
      if Cancels(event) then (v.(editor := Aborted(v.editor)), None)
      else if !Accepts(event) then (v.(editor := Edited(lit, v.editor, typed)), Some(Change))
      else if v.editor.draft.Valid? then
        (v.(editor := Committed(v.editor)), Some(SetCustomFilter(Committed(v.editor).committed)))
      else (v, if event.key == Enter && !root.ProcessRoot? then AskProcess(v) else None)
  {
    hide Aborted;
    hide Edited;
    hide Committed;
    hide AskProcess;
    hide AskRemoteIp;
  }

  lemma EditStep(lit: IpSyntax, s: UiState, event: Event, typed: Typed)
    requires UiOk(lit, s) && s.table.editor.editing
    ensures var s' := UiHandle(lit, s, event, typed).0;
            UiOk(lit, s') && Abs(s') == SeenHandle(lit, Abs(s), event, typed)
  {
    EditResult(lit, s.root, s.table, event, typed);
    hide RootHandle;
    hide Parse;
    if Accepts(event) && s.table.editor.draft == Invalid {
      FallThrough(lit, s, event, typed);
    }
  }

  lemma FallThrough(lit: IpSyntax, s: UiState, event: Event, typed: Typed)
    requires UiOk(lit, s) && s.table.editor.editing && Accepts(event) && s.table.editor.draft == Invalid
    ensures var s' := UiHandle(lit, s, event, typed).0;
            UiOk(lit, s') && Abs(s') == SeenHandle(lit, Abs(s), event, typed)
  {
    EditResult(lit, s.root, s.table, event, typed);
    hide RootHandle;
    hide Parse;
    var entry := SelectedEntry(s.table.dataset, s.table.selected);
    hide SelectedEntry;
    assert !Acceptable(lit, FirstLine(s.table.editor.lines));
    if event.key == Enter && !s.root.ProcessRoot? && entry.Some? {
      assert RootHandle(lit, s.root, s.table, event, typed).1 == Some(SelectProcess(entry.value.pid));
    }
  }

  // ---- While not editing ----

  lemma IdleResult(lit: IpSyntax, root: Root, v: TableView, event: Event, typed: Typed)
    requires !v.editor.editing
    ensures RootHandle(lit, root, v, event, typed) ==
      if IsChar(event, '/') then (v.(editor := Opened(v.editor)), Some(Change)) else RootKeys(root, v, event)
  {
    hide Opened;
    hide RootKeys;
  }

  predicate Leaves(event: Event) {
    IsChar(event, 'q') || IsKey(event, Backspace)
  }

  predicate Chooses(event: Event) {
    IsChar(event, 'p') || IsKey(event, Enter) || IsChar(event, 'r')
  }

  lemma IdleStep(lit: IpSyntax, s: UiState, event: Event, typed: Typed)
    requires UiOk(lit, s) && !s.table.editor.editing
    ensures var s' := UiHandle(lit, s, event, typed).0;
            UiOk(lit, s') && Abs(s') == SeenHandle(lit, Abs(s), event, typed)
  {
    if Leaves(event) {
      LeaveStep(lit, s, event, typed);
    } else if Chooses(event) {
      ChooseStep(lit, s, event, typed);
    } else {
      IdleResult(lit, s.root, s.table, event, typed);
      EditorKeepsOk(lit, s.table.editor, event, typed);
      hide Navigate;
      hide GoTo;
      hide Parse;
      hide MovedUp;
      hide MovedDown;
      hide SelectedEntry;
      hide RootHandle;
      hide EditorHandle;
      hide EditorOk;
    }
  }

  lemma LeaveStep(lit: IpSyntax, s: UiState, event: Event, typed: Typed)
    requires UiOk(lit, s) && !s.table.editor.editing && Leaves(event)
    ensures var s' := UiHandle(lit, s, event, typed).0;
            UiOk(lit, s') && Abs(s') == SeenHandle(lit, Abs(s), event, typed)
  {
    IdleResult(lit, s.root, s.table, event, typed);
    NavigateIs(lit, s.(dirty := true), NoFilter);
    hide MovedUp;
    hide MovedDown;
    hide SelectedEntry;
    hide Navigate;
    hide GoTo;
    hide Parse;
    hide RootHandle;
    hide EditorOk;
  }

  lemma ChooseKeys(root: Root, v: TableView, event: Event)
    requires Chooses(event)
    ensures RootKeys(root, v, event) == (v,
      if IsChar(event, 'r') then if root.RemoteIpRoot? then None else AskRemoteIp(v)
      else if root.ProcessRoot? then None else AskProcess(v))
  {
    hide AskProcess;
    hide AskRemoteIp;
  }

  lemma ChosenSeen(lit: IpSyntax, s: Seen, event: Event, typed: Typed)
    requires s.edit == None && Chooses(event)
    ensures var entry := SelectedEntry(s.dataset, s.selected);
            SeenHandle(lit, s, event, typed) ==
            if entry == None then s
            else if IsChar(event, 'r') then
              if s.filter.RemoteAddress? then s else GoTo(s, RemoteAddress(entry.value.socket.remote.ip))
            else if s.filter.Process? then s
            else GoTo(s, Process(entry.value.pid))
  {
    hide SelectedEntry;
    hide GoTo;
  }

  lemma ChooseStep(lit: IpSyntax, s: UiState, event: Event, typed: Typed)
    requires UiOk(lit, s) && !s.table.editor.editing && Chooses(event)
    ensures var s' := UiHandle(lit, s, event, typed).0;
            UiOk(lit, s') && Abs(s') == SeenHandle(lit, Abs(s), event, typed)
  {
    IdleResult(lit, s.root, s.table, event, typed);
    var entry := SelectedEntry(s.table.dataset, s.table.selected);
    var filter := NoFilter;
    if entry.Some? {
      filter := if IsChar(event, 'r') then RemoteAddress(entry.value.socket.remote.ip) else Process(entry.value.pid);
      NavigateIs(lit, s.(dirty := true), filter);
    }
    ChooseKeys(s.root, s.table, event);
    ChosenSeen(lit, Abs(s), event, typed);
    hide SeenHandle;
    hide RootKeys;
    hide CustomOk;
    hide Navigate;
    hide GoTo;
    hide Parse;
    hide SelectedEntry;
    hide RootHandle;
    hide EditorOk;
  }

  lemma NavigateIs(lit: IpSyntax, s: UiState, filter: Filter)
    requires UiOk(lit, s)
    ensures UiOk(lit, Navigate(s, filter))
    ensures filter != s.filter ==> Abs(Navigate(s, filter)) == GoTo(Abs(s), filter)
  {
    NewEditorOk(lit, s.custom);
    hide EditorOk;
    hide CustomOk;
  }

  lemma NewEditorOk(lit: IpSyntax, custom: Option<CustomFilter>)
    requires CustomOk(lit, custom)
    ensures EditorOk(lit, WithFilter(custom))
  {
  }

  /** Over every sequence of events and frames the interface keeps `UiOk`, and it is the reference machine
      of texts: no filter that is cached anywhere ever differs from its text. */
  lemma {:induction false} UiRefinesSeen(lit: IpSyntax, inputs: seq<Input>)
    ensures UiOk(lit, UiRun(lit, inputs))
    ensures Abs(UiRun(lit, inputs)) == SeenRun(lit, inputs)
  {
    hide UiHandle;
    hide SeenHandle;
    if inputs != [] {
      var init, i := inputs[..|inputs| - 1], inputs[|inputs| - 1];
      UiRefinesSeen(lit, init);
      var s := UiRun(lit, init);
      if i.Handle? {
        if s.table.editor.editing { EditStep(lit, s, i.event, i.typed); } else { IdleStep(lit, s, i.event, i.typed); }
      }
    }
  }
}
