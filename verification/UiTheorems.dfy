/** What holds of the user interface after every sequence of events and frames. */
module UiTheorems {
  import opened Types
  import opened FilterLang
  import opened FilterParser
  import opened ViewFilter
  import opened SocketTableSpec
  import opened EditorSpec
  import opened UiSpec

  /** The expression a text stands for, if any. */
  function Reading(lit: IpSyntax, text: string): Option<Expr> {
    if text == "" then None else Parse(lit, text)
  }

  /** The custom filter, the active view's committed filter and the filters that the table and the sparkline
      use are what the texts of the reference machine stand for; the root view is the one for its filter. */
  lemma FiltersFollowTexts(lit: IpSyntax, inputs: seq<Input>)
    ensures var s, seen := UiRun(lit, inputs), SeenRun(lit, inputs);
            && s.custom == CustomOf(lit, seen.text)
            && s.table.editor.committed == s.custom
            && InterpretorOf(s.custom) == Reading(lit, seen.text)
            && Shown(s.table.editor) == Reading(lit, if seen.edit.Some? then seen.edit.value else seen.text)
            && s.root == RootFor(seen.filter) && s.table.filter == seen.filter && s.sparkline == seen.filter
  {
    UiRefinesSeen(lit, inputs);
    hide UiRun;
    hide SeenRun;
    hide Parse;
  }

  /** The text that is kept can always be committed again: it is empty or it parses. */
  lemma TextIsAcceptable(lit: IpSyntax, inputs: seq<Input>)
    ensures Acceptable(lit, SeenRun(lit, inputs).text)
  {
    UiRefinesSeen(lit, inputs);
    hide UiRun;
    hide SeenRun;
    hide Parse;
  }

  /** While a filter is edited, a character never quits, pauses or navigates; it changes the committed filter
      only if it is Ctrl+M on a line that can be committed. */
  lemma TypingIsInert(lit: IpSyntax, inputs: seq<Input>, c: char, ctrl: bool, typed: Typed)
    requires UiRun(lit, inputs).table.editor.editing
    ensures var s := UiRun(lit, inputs);
            var (s', r) := UiHandle(lit, s, KeyPress(Char(c), ctrl), typed);
            && r != Some(Quit) && s'.paused == s.paused && s'.filter == s.filter && s'.root == s.root
            && s'.table.selected == s.table.selected && s'.table.dataset == s.table.dataset
            && (s'.custom != s.custom ==>
                  c == 'm' && ctrl && Acceptable(lit, FirstLine(s.table.editor.lines)))
  {
    UiRefinesSeen(lit, inputs);
    hide UiRun;
    hide SeenRun;
    hide Parse;
    var s := UiRun(lit, inputs);
    EditResult(lit, s.root, s.table, KeyPress(Char(c), ctrl), typed);
    hide RootHandle;
  }

  /** While a filter is edited, the view changes exactly on Enter with a line that does not parse, in the main
      and the remote address view, if a row is selected; the draft is lost. */
  lemma NavigatesWhileEditingIff(lit: IpSyntax, inputs: seq<Input>, event: Event, typed: Typed)
    requires UiRun(lit, inputs).table.editor.editing
    ensures var s := UiRun(lit, inputs);
            var (s', r) := UiHandle(lit, s, event, typed);
            && r != Some(Quit) && s'.paused == s.paused
            && (s'.filter != s.filter <==>
                  && IsKey(event, Enter) && !Acceptable(lit, FirstLine(s.table.editor.lines))
                  && !s.root.ProcessRoot? && SelectedEntry(s.table.dataset, s.table.selected).Some?)
            && (s'.filter != s.filter ==> !s'.table.editor.editing && s'.custom == s.custom)
  {
    UiRefinesSeen(lit, inputs);
    hide UiRun;
    hide SeenRun;
    hide Parse;
    hide SelectedEntry;
    var s := UiRun(lit, inputs);
    EditResult(lit, s.root, s.table, event, typed);
    hide RootHandle;
  }

  /** Exactly when the program quits and when it is paused or resumed. */
  lemma QuitAndPauseIff(lit: IpSyntax, inputs: seq<Input>, event: Event, typed: Typed)
    ensures var s := UiRun(lit, inputs);
            var (s', r) := UiHandle(lit, s, event, typed);
            && (r == Some(Quit) <==> !s.table.editor.editing && s.filter == NoFilter && IsChar(event, 'q'))
            && (s'.paused != s.paused <==> !s.table.editor.editing && IsChar(event, ' '))
  {
    UiRefinesSeen(lit, inputs);
    hide UiRun;
    hide SeenRun;
    var s := UiRun(lit, inputs);
    if s.table.editor.editing {
      NavigatesWhileEditingIff(lit, inputs, event, typed);
    } else {
      IdleResult(lit, s.root, s.table, event, typed);
    }
    hide Parse;
    hide RootHandle;
    hide UiOk;
    hide SelectedEntry;
    hide MovedUp;
    hide MovedDown;
    RootIs(lit, s);
  }

  lemma RootIs(lit: IpSyntax, s: UiState)
    requires UiOk(lit, s)
    ensures s.root.MainRoot? <==> s.filter == NoFilter
  {
  }

  /** An event that changes what the user sees asks for a new frame, with one exception: closing the editor
      with Escape. */
  lemma UndrawnIffAborted(lit: IpSyntax, inputs: seq<Input>, event: Event, typed: Typed)
    requires !UiRun(lit, inputs).dirty
    ensures var s := UiRun(lit, inputs);
            var s' := UiHandle(lit, s, event, typed).0;
            Abs(s') != Abs(s) && !s'.dirty <==> s.table.editor.editing && Cancels(event)
  {
    hide UiRun;
    hide Parse;
    var s := UiRun(lit, inputs);
    if s.table.editor.editing {
      EditResult(lit, s.root, s.table, event, typed);
    } else {
      IdleResult(lit, s.root, s.table, event, typed);
    }
    hide RootHandle;
    hide SelectedEntry;
    hide MovedUp;
    hide MovedDown;
  }

  /** Where the keys lead while no filter is edited: `p` and Enter to the process of the selected row, `r` to its
      remote address, `q` and Backspace back, each from the views that offer it; every other key stays. */
  lemma NavigatesTo(lit: IpSyntax, inputs: seq<Input>, event: Event, typed: Typed)
    requires !UiRun(lit, inputs).table.editor.editing
    ensures var s := UiRun(lit, inputs);
            var s' := UiHandle(lit, s, event, typed).0;
            var rows, chosen := s.table.dataset, s.table.selected;
            var some := chosen.Some? && chosen.value < |rows|;
            s'.filter ==
              if some && !s.filter.Process? && (IsChar(event, 'p') || IsKey(event, Enter)) then Process(rows[chosen.value].pid)
              else if some && !s.filter.RemoteAddress? && IsChar(event, 'r') then
                RemoteAddress(rows[chosen.value].socket.remote.ip)
              else if s.filter != NoFilter && (IsChar(event, 'q') || IsKey(event, Backspace)) then NoFilter
              else s.filter
  {
    UiRefinesSeen(lit, inputs);
    hide UiRun;
    hide SeenRun;
    hide Parse;
    var s := UiRun(lit, inputs);
    IdleResult(lit, s.root, s.table, event, typed);
    hide RootHandle;
    hide MovedUp;
    hide MovedDown;
  }

  /** While a filter is edited, Enter on a line that does not parse goes to the process of the selected row. */
  lemma FallsThroughTo(lit: IpSyntax, inputs: seq<Input>, event: Event, typed: Typed)
    requires UiRun(lit, inputs).table.editor.editing
    ensures var s := UiRun(lit, inputs);
            var s' := UiHandle(lit, s, event, typed).0;
            s'.filter != s.filter ==>
              && s.table.selected.Some? && s.table.selected.value < |s.table.dataset|
              && s'.filter == Process(s.table.dataset[s.table.selected.value].pid)
  {
    UiRefinesSeen(lit, inputs);
    hide UiRun;
    hide SeenRun;
    hide Parse;
    var s := UiRun(lit, inputs);
    EditResult(lit, s.root, s.table, event, typed);
    hide RootHandle;
  }

  /** Editing: what is typed becomes the line; Escape closes the editor and keeps the filter; Enter and Ctrl+M accept a
      line that is empty or parses, which then is the filter; anything else goes on. */
  lemma EditingGoes(lit: IpSyntax, inputs: seq<Input>, key: Key, ctrl: bool, typed: Typed)
    requires UiRun(lit, inputs).table.editor.editing
    ensures var s := UiRun(lit, inputs);
            var s' := UiHandle(lit, s, KeyPress(key, ctrl), typed).0;
            var line := if s.table.editor.lines == [] then "" else s.table.editor.lines[0];
            var accepts := key == Enter || (key == Char('m') && ctrl);
            && (key == Esc ==> !s'.table.editor.editing && s'.custom == s.custom)
            && (accepts && line == "" ==> !s'.table.editor.editing && s'.custom == None)
            && (accepts && line != "" && Parse(lit, line).Some? ==>
                  !s'.table.editor.editing && s'.custom == Some(CustomFilter(line, Parse(lit, line).value)))
            && (accepts && line != "" && Parse(lit, line) == None ==> s'.custom == s.custom)
            && (!accepts && key != Esc ==>
                  && s'.table.editor.editing && s'.custom == s.custom
                  && s'.table.editor.lines == if typed.modified then typed.lines else s.table.editor.lines)
  {
    UiRefinesSeen(lit, inputs);
    hide UiRun;
    hide SeenRun;
    hide Parse;
    hide SelectedEntry;
    var s := UiRun(lit, inputs);
    EditResult(lit, s.root, s.table, KeyPress(key, ctrl), typed);
    hide RootHandle;
  }

  /** While no filter is edited, the slash opens the editor on the accepted text, and nothing else does. */
  lemma SlashOpens(lit: IpSyntax, inputs: seq<Input>, event: Event, typed: Typed)
    requires !UiRun(lit, inputs).table.editor.editing
    ensures var s := UiRun(lit, inputs);
            var s' := UiHandle(lit, s, event, typed).0;
            && (s'.table.editor.editing <==> IsChar(event, '/'))
            && (s'.table.editor.editing ==> s'.table.editor.lines == [if s.custom == None then "" else s.custom.value.content])
            && s'.custom == s.custom
  {
    UiRefinesSeen(lit, inputs);
    hide UiRun;
    hide SeenRun;
    hide Parse;
    hide SelectedEntry;
    hide MovedUp;
    hide MovedDown;
    var s := UiRun(lit, inputs);
    IdleResult(lit, s.root, s.table, event, typed);
    hide RootHandle;
  }
}
