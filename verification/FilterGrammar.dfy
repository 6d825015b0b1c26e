/** The filter language as a set of texts: concrete syntax trees, the text of each and the expression
    it stands for. Nothing here mentions how a text is parsed. */
module FilterGrammar {
  import opened Types
  import opened FilterLang
  import opened FilterParser

  ghost predicate Blank(w: string) {
    forall i | 0 <= i < |w| :: IsBlank(w[i])
  }

  /** An operand with the white space after it. */
  datatype Leaf = Leaf(kind: Kind, arg: string, trail: string)

  /** What the infix operators combine. `bang` chooses "!" over "not"; the strings are white space. */
  datatype Atom =
    | Plain(leaf: Leaf)
    | NotLeaf(bang: bool, gap: string, leaf: Leaf)
    | NotGroup(bang: bool, gap: string, open: string, body: Chain, close: string, trail: string)
    | Group(open: string, body: Chain, close: string)

  datatype Spelling = WordOr | SymOr | WordAnd | SymAnd

  /** A chain of atoms; it has no structure but its order. */
  datatype Chain = One(atom: Atom) | More(left: Chain, before: string, op: Spelling, after: string, right: Atom)

  function OpText(op: Spelling): string {
    match op
    case WordOr => "or"
    case SymOr => "||"
    case WordAnd => "and"
    case SymAnd => "&&"
  }

  predicate IsAnd(op: Spelling) {
    op.WordAnd? || op.SymAnd?
  }

  function NotText(bang: bool): string {
    if bang then "!" else "not"
  }

  function LeafText(l: Leaf): string {
    Keyword(l.kind) + (l.arg + (if HasArg(l.kind) then "]" else "") + l.trail)
  }

  function AtomText(a: Atom): string {
    match a
    case Plain(leaf) => LeafText(leaf)
    case NotLeaf(bang, gap, leaf) => NotText(bang) + (gap + LeafText(leaf))
    case NotGroup(bang, gap, open, body, close, trail) =>
      NotText(bang) + (gap + ("(" + (open + (ChainText(body) + (close + (")" + trail))))))
    case Group(open, body, close) => "(" + (open + (ChainText(body) + (close + ")")))
  }

  function ChainText(c: Chain): string {
    match c
    case One(atom) => AtomText(atom)
    case More(left, before, op, after, right) =>
      ChainText(left) + (before + (OpText(op) + (after + AtomText(right))))
  }

  ghost predicate ArgOk(lit: IpSyntax, k: Kind, arg: string) {
    && (forall i | 0 <= i < |arg| :: if IsAddrKind(k) then IsAddrChar(arg[i]) else IsDigit(arg[i]))
    && Meaning(lit, k, arg).Some?
  }

  ghost predicate LeafOk(lit: IpSyntax, l: Leaf) {
    ArgOk(lit, l.kind, l.arg) && Blank(l.trail)
  }

  ghost predicate AtomOk(lit: IpSyntax, a: Atom) {
    match a
    case Plain(leaf) => LeafOk(lit, leaf)
    case NotLeaf(bang, gap, leaf) => Blank(gap) && LeafOk(lit, leaf)
    case NotGroup(bang, gap, open, body, close, trail) =>
      Blank(gap) && Blank(open) && ChainOk(lit, body) && Blank(close) && Blank(trail)
    case Group(open, body, close) => Blank(open) && ChainOk(lit, body) && Blank(close)
  }

  ghost predicate ChainOk(lit: IpSyntax, c: Chain) {
    match c
    case One(atom) => AtomOk(lit, atom)
    case More(left, before, op, after, right) => ChainOk(lit, left) && Blank(before) && Blank(after) && AtomOk(lit, right)
  }

  function LeafExpr(lit: IpSyntax, l: Leaf): Expr
    requires Meaning(lit, l.kind, l.arg).Some?
  {
    Meaning(lit, l.kind, l.arg).value
  }

  function Combine(op: Spelling, a: Expr, b: Expr): Expr {
    if IsAnd(op) then And(a, b) else Or(a, b)
  }

  ghost function AtomExpr(lit: IpSyntax, a: Atom): Expr
    requires AtomOk(lit, a)
  {
    match a
    case Plain(leaf) => LeafExpr(lit, leaf)
    case NotLeaf(_, _, leaf) => Not(LeafExpr(lit, leaf))
    case NotGroup(_, _, _, body, _, _) => Not(ChainExpr(lit, body))
    case Group(_, body, _) => ChainExpr(lit, body)
  }

  /** A chain stands for the tree that leans to the left. */
  ghost function ChainExpr(lit: IpSyntax, c: Chain): Expr
    requires ChainOk(lit, c)
  {
    match c
    case One(atom) => AtomExpr(lit, atom)
    case More(left, _, op, _, right) => Combine(op, ChainExpr(lit, left), AtomExpr(lit, right))
  }

  function FirstAtom(c: Chain): Atom {
    match c
    case One(atom) => atom
    case More(left, _, _, _, _) => FirstAtom(left)
  }

  function LastAtom(c: Chain): Atom {
    match c
    case One(atom) => atom
    case More(_, _, _, _, right) => right
  }

  /** A whole filter: white space may lead only if an operand comes first. */
  ghost predicate FilterOk(lit: IpSyntax, lead: string, c: Chain) {
    Blank(lead) && ChainOk(lit, c) && (lead == "" || FirstAtom(c).Plain?)
  }

  /** The text belongs to the language, and stands for the expression. */
  ghost predicate Denotes(lit: IpSyntax, s: string, e: Expr) {
    exists lead, c :: FilterOk(lit, lead, c) && s == lead + ChainText(c) && ChainExpr(lit, c) == e
  }
}
