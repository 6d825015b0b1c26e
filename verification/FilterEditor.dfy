/** The filter editor's state machine, changed in place. */
module FilterEditor {
  import opened Types
  import opened FilterLang
  import opened FilterParser
  import opened EditorSpec

  class FilterView {
    const lit: IpSyntax
    var committed: Option<CustomFilter>
    var draft: Draft
    var lines: seq<string>
    var editing: bool

    ghost function State(): Editor
      reads this
    {
      Editor(committed, draft, lines, editing)
    }

    /** `FilterView::with_filter` */
    constructor (lit: IpSyntax, filter: Option<CustomFilter>)
      ensures this.lit == lit && State() == WithFilter(filter)
    {
      this.lit := lit;
      committed := filter;
      draft := Valid(None);
      lines := [""];
      editing := false;
    }

    method SetEditing()
      modifies this
      ensures State() == Opened(old(State()))
    {
      editing := true;
      draft := Valid(InterpretorOf(committed));
      lines := [Content(committed)];
    }

    /** The draft's interpreter is moved out of the draft. */
    method Commit()
      modifies this
      ensures State() == Committed(old(State()))
    {
      editing := false;
      if draft.Valid? && draft.interpretor.Some? {
        var interpretor := draft.interpretor.value;
        draft := Valid(None);
        var content := "";
        if |lines| > 0 && lines[0] != "" {
          content := lines[0];
        }
        committed := Some(CustomFilter(content, interpretor));
      } else {
        committed := None;
      }
    }

    method Abort()
      modifies this
      ensures State() == Aborted(old(State()))
    {
      editing := false;
      draft := Valid(None);
      lines := [Content(committed)];
    }

    method Interpretor() returns (r: Option<Expr>)
      ensures r == Shown(State())
    {
      if editing {
        match draft {
          case Valid(interpretor) => r := interpretor;
          case Invalid => r := None;
        }
      } else {
        r := InterpretorOf(committed);
      }
    }

    method Update()
      modifies this`draft
      ensures draft == DraftOf(lit, FirstLine(lines))
    {
      if |lines| > 0 && lines[0] != "" {
        match Parse(lit, lines[0]) {
          case None => draft := Invalid;
          case Some(e) => draft := Valid(Some(e));
        }
      } else {
        draft := Valid(None);
      }
    }

    method HandleEvent(event: Event, typed: Typed) returns (r: Option<UiEvent>)
      modifies this
      ensures (State(), r) == EditorHandle(lit, old(State()), event, typed)
      ensures EditorOk(lit, old(State())) ==> EditorOk(lit, State())
    {
      ghost var before := State();
      if EditorOk(lit, before) {
        EditorKeepsOk(lit, before, event, typed);
      }
      if !editing { return None; }
      if Cancels(event) {
        Abort();
        r := None;
      } else if Accepts(event) {
        if draft.Valid? {
          Commit();
          r := Some(SetCustomFilter(committed));
        } else {
          r := None;
        }
      } else {
        if typed.modified {
          lines := typed.lines;
          Update();
        }
        r := Some(Change);
      }
    }
  }
}
