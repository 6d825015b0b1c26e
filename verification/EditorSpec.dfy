/** The filter editor (`ptraf/src/ui/filter_editor.rs`) as functions on values. The text area is seen only
    through its lines and through what it makes of a key. */
module EditorSpec {
  import opened Types
  import opened FilterLang
  import opened FilterParser

  datatype Key = Char(c: char) | Enter | Esc | Up | Down | Backspace | OtherKey

  /** A terminal event; the keyboard's other modifiers are not looked at. */
  datatype Event = KeyPress(key: Key, ctrl: bool) | OtherEvent

  /** What the text area makes of an event: whether it says that it changed, and its lines if so. */
  datatype Typed = Typed(modified: bool, lines: seq<string>)

  datatype CustomFilter = CustomFilter(content: string, interpretor: Expr)

  /** `Result<Option<Interpretor>, Error>` */
  datatype Draft = Valid(interpretor: Option<Expr>) | Invalid

  datatype Editor = Editor(committed: Option<CustomFilter>, draft: Draft, lines: seq<string>, editing: bool)

  datatype UiEvent =
    | Quit | Change | Back
    | SelectProcess(pid: u32)
    | SelectRemoteIp(ip: StdIp)
    | SetCustomFilter(custom: Option<CustomFilter>)

  predicate Accepts(event: Event) {
    event.KeyPress? && (event.key == Enter || (event.key == Char('m') && event.ctrl))
  }

  predicate Cancels(event: Event) {
    event.KeyPress? && event.key == Esc
  }

  /** The first line, or nothing. */
  function FirstLine(lines: seq<string>): string {
    if lines == [] then "" else lines[0]
  }

  /** What the first line means as a draft. */
  function DraftOf(lit: IpSyntax, line: string): Draft {
    if line == "" then Valid(None)
    else match Parse(lit, line) case None => Invalid case Some(e) => Valid(Some(e))
  }

  function Content(custom: Option<CustomFilter>): string {
    if custom == None then "" else custom.value.content
  }

  function InterpretorOf(custom: Option<CustomFilter>): Option<Expr> {
    if custom == None then None else Some(custom.value.interpretor)
  }

  function WithFilter(custom: Option<CustomFilter>): Editor {
    Editor(custom, Valid(None), [""], false)
  }

  function Opened(s: Editor): Editor {
    Editor(s.committed, Valid(InterpretorOf(s.committed)), [Content(s.committed)], true)
  }

  function Committed(s: Editor): Editor {
    if s.draft.Valid? && s.draft.interpretor.Some? then
      Editor(Some(CustomFilter(FirstLine(s.lines), s.draft.interpretor.value)), Valid(None), s.lines, false)
    else s.(committed := None, editing := false)
  }

  function Aborted(s: Editor): Editor {
    Editor(s.committed, Valid(None), [Content(s.committed)], false)
  }

  function Edited(lit: IpSyntax, s: Editor, typed: Typed): Editor {
    if typed.modified then s.(lines := typed.lines, draft := DraftOf(lit, FirstLine(typed.lines))) else s
  }

  function EditorHandle(lit: IpSyntax, s: Editor, event: Event, typed: Typed): (Editor, Option<UiEvent>) {
    if !s.editing then (s, None)
    else if Cancels(event) then (Aborted(s), None)
    else if Accepts(event) then
      if s.draft.Valid? then (Committed(s), Some(SetCustomFilter(Committed(s).committed))) else (s, None)
    else (Edited(lit, s, typed), Some(Change))
  }

  /** The filter that the table beside the editor uses. */
  function Shown(s: Editor): Option<Expr> {
    if !s.editing then InterpretorOf(s.committed)
    else if s.draft.Valid? then s.draft.interpretor
    else None
  }

  /** A committed filter has a text, and its expression is what the text parses to. */
  predicate CustomOk(lit: IpSyntax, custom: Option<CustomFilter>) {
    custom.Some? ==> custom.value.content != "" && Parse(lit, custom.value.content) == Some(custom.value.interpretor)
  }

  /** Nothing is cached that the texts do not say. */
  predicate EditorOk(lit: IpSyntax, s: Editor) {
    && CustomOk(lit, s.committed)
    && s.draft == if s.editing then DraftOf(lit, FirstLine(s.lines)) else Valid(None)
  }

  /** The filter that a committed text stands for; the empty text is no filter. */
  function CustomOf(lit: IpSyntax, text: string): Option<CustomFilter> {
    match Parse(lit, text)
    case None => None
    case Some(e) => if text == "" then None else Some(CustomFilter(text, e))
  }

  /** What a text may be committed as. */
  predicate Acceptable(lit: IpSyntax, text: string) {
    text == "" || Parse(lit, text).Some?
  }

  lemma EditorKeepsOk(lit: IpSyntax, s: Editor, event: Event, typed: Typed)
    requires EditorOk(lit, s)
    ensures EditorOk(lit, EditorHandle(lit, s, event, typed).0)
    ensures EditorOk(lit, Opened(s))
    ensures Opened(s).draft.Valid?
  {
    hide Parse;
  }
}
