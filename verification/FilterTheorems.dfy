/** What the filter language promises: printing and parsing are inverse, an unparenthesised chain is a
    fold from the left, and where white space may stand. */
module FilterTheorems {
  import opened Types
  import opened FilterLang
  import opened FilterParser
  import opened FilterGrammar
  import opened FilterProofs

  // ---- Round trip ----

  /** What the round trip needs of the address literals. */
  ghost predicate LitRoundTrips(lit: IpSyntax) {
    forall ip :: LitOk(lit, ip)
  }

  ghost predicate LitOk(lit: IpSyntax, ip: StdIp) {
    var text := lit.show(ip);
    text != "" && lit.parse(text) == Some(ip) && forall i | 0 <= i < |text| :: IsAddrChar(text[i])
  }

  function DigitOf(n: nat): char
    requires n < 10
  {
    '0' + n as char
  }

  function Decimal(n: nat): string {
    if n < 10 then [DigitOf(n)] else Decimal(n / 10) + [DigitOf(n % 10)]
  }

  lemma {:induction false} DecimalRoundTrip(n: nat)
    ensures NumberOf(Decimal(n)) == n && Decimal(n) != ""
    ensures forall i | 0 <= i < |Decimal(n)| :: IsDigit(Decimal(n)[i])
  {
    if n < 10 {
      assert Decimal(n)[..0] == "";
    } else {
      DecimalRoundTrip(n / 10);
      assert Decimal(n)[..|Decimal(n)| - 1] == Decimal(n / 10);
    }
  }

  predicate IsLeaf(e: Expr) {
    !e.And? && !e.Or? && !e.Not?
  }

  function CanonLeaf(lit: IpSyntax, e: Expr): Leaf
    requires IsLeaf(e)
  {
    match e
    case ExprPid(pid) => Leaf(KPid, Decimal(pid), "")
    case ExprProtocol(p) => Leaf(if p.Udp? then KUdp else KTcp, "", "")
    case ExprIpVersion(v) => Leaf(if v.IpV4? then KIpv4 else KIpv6, "", "")
    case ExprAddr(ip) => Leaf(KAddr, lit.show(ip), "")
    case ExprLocalAddr(ip) => Leaf(KLocalAddr, lit.show(ip), "")
    case ExprRemoteAddr(ip) => Leaf(KRemoteAddr, lit.show(ip), "")
    case ExprPort(port) => Leaf(KPort, Decimal(port), "")
    case ExprLocalPort(port) => Leaf(KLocalPort, Decimal(port), "")
    case ExprRemotePort(port) => Leaf(KRemotePort, Decimal(port), "")
  }

  /** The canonical text: operators as words or as symbols, and parentheses only where the tree does not lean left. */
  function Canon(lit: IpSyntax, symbols: bool, e: Expr): Chain
    decreases e, 1
  {
    match e
    case And(a, b) => More(Canon(lit, symbols, a), " ", if symbols then SymAnd else WordAnd, " ", CanonAtom(lit, symbols, b))
    case Or(a, b) => More(Canon(lit, symbols, a), " ", if symbols then SymOr else WordOr, " ", CanonAtom(lit, symbols, b))
    case _ => One(CanonAtom(lit, symbols, e))
  }

  function CanonAtom(lit: IpSyntax, symbols: bool, e: Expr): Atom
    decreases e, if e.And? || e.Or? then 2 else 0
  {
    match e
    case Not(a) => if IsLeaf(a) then NotLeaf(symbols, " ", CanonLeaf(lit, a)) else NotGroup(symbols, " ", "", Canon(lit, symbols, a), "", "")
    case And(_, _) => Group("", Canon(lit, symbols, e), "")
    case Or(_, _) => Group("", Canon(lit, symbols, e), "")
    case _ => Plain(CanonLeaf(lit, e))
  }

  /** The same text, written out. */
  function Print(lit: IpSyntax, symbols: bool, e: Expr): string {
    match e
    case ExprPid(pid) => "pid[" + Decimal(pid) + "]"
    case ExprProtocol(p) => if p == Udp then "udp" else "tcp"
    case ExprIpVersion(v) => if v == IpV4 then "ipv4" else "ipv6"
    case ExprAddr(ip) => "addr[" + lit.show(ip) + "]"
    case ExprLocalAddr(ip) => "laddr[" + lit.show(ip) + "]"
    case ExprRemoteAddr(ip) => "raddr[" + lit.show(ip) + "]"
    case ExprPort(port) => "port[" + Decimal(port) + "]"
    case ExprLocalPort(port) => "lport[" + Decimal(port) + "]"
    case ExprRemotePort(port) => "rport[" + Decimal(port) + "]"
    case And(a, b) => Spaced(Print(lit, symbols, a), if symbols then "&&" else "and", Parenthesised(b.And? || b.Or?, Print(lit, symbols, b)))
    case Or(a, b) => Spaced(Print(lit, symbols, a), if symbols then "||" else "or", Parenthesised(b.And? || b.Or?, Print(lit, symbols, b)))
    case Not(a) => (if symbols then "!" else "not") + (" " + Parenthesised(!IsLeaf(a), Print(lit, symbols, a)))
  }

  function Spaced(left: string, op: string, right: string): string {
    left + (" " + (op + (" " + right)))
  }

  function Parenthesised(wanted: bool, text: string): string {
    if wanted then "(" + text + ")" else text
  }

  lemma PrintLeaf(lit: IpSyntax, symbols: bool, e: Expr)
    requires IsLeaf(e)
    ensures Print(lit, symbols, e) == LeafText(CanonLeaf(lit, e))
  {
    hide Decimal;
    var l := CanonLeaf(lit, e);
    assert LeafText(l) == Keyword(l.kind) + l.arg + (if HasArg(l.kind) then "]" else "");
  }

  lemma {:induction false} PrintIsText(lit: IpSyntax, symbols: bool, e: Expr)
    ensures Print(lit, symbols, e) == ChainText(Canon(lit, symbols, e))
    ensures Parenthesised(e.And? || e.Or?, Print(lit, symbols, e)) == AtomText(CanonAtom(lit, symbols, e))
  {
    hide LeafText;
    hide Decimal;
    hide CanonLeaf;
    match e {
      case And(a, b) =>
        PrintIsText(lit, symbols, a);
        PrintIsText(lit, symbols, b);
        PrintInfix(lit, symbols, a, b);
      case Or(a, b) =>
        PrintIsText(lit, symbols, a);
        PrintIsText(lit, symbols, b);
        PrintInfix(lit, symbols, a, b);
      case Not(a) =>
        PrintIsText(lit, symbols, a);
        PrintNot(lit, symbols, a);
      case _ => PrintLeaf(lit, symbols, e);
    }
  }

  lemma GroupIs(text: string)
    ensures "(" + ("" + (text + ("" + ")"))) == Parenthesised(true, text)
    ensures "(" + ("" + (text + ("" + (")" + "")))) == Parenthesised(true, text)
  {
    assert "" + ")" == ")" && ")" + "" == ")";
    assert "" + (text + ")") == text + ")";
    assert "(" + (text + ")") == "(" + text + ")";
  }

  lemma PrintNot(lit: IpSyntax, symbols: bool, a: Expr)
    requires Print(lit, symbols, a) == ChainText(Canon(lit, symbols, a))
    ensures Print(lit, symbols, Not(a)) == AtomText(CanonAtom(lit, symbols, Not(a))) == ChainText(Canon(lit, symbols, Not(a)))
  {
    hide LeafText;
    hide CanonLeaf;
    if IsLeaf(a) {
      PrintLeaf(lit, symbols, a);
    } else {
      GroupIs(Print(lit, symbols, a));
    }
    hide Parenthesised;
  }

  lemma PrintInfix(lit: IpSyntax, symbols: bool, a: Expr, b: Expr)
    requires Print(lit, symbols, a) == ChainText(Canon(lit, symbols, a))
    requires Parenthesised(b.And? || b.Or?, Print(lit, symbols, b)) == AtomText(CanonAtom(lit, symbols, b))
    ensures Print(lit, symbols, And(a, b)) == ChainText(Canon(lit, symbols, And(a, b)))
    ensures Print(lit, symbols, Or(a, b)) == ChainText(Canon(lit, symbols, Or(a, b)))
    ensures Parenthesised(true, Print(lit, symbols, And(a, b))) == AtomText(CanonAtom(lit, symbols, And(a, b)))
    ensures Parenthesised(true, Print(lit, symbols, Or(a, b))) == AtomText(CanonAtom(lit, symbols, Or(a, b)))
  {
    hide Parenthesised;
    hide LeafText;
    GroupIs(Print(lit, symbols, And(a, b)));
    GroupIs(Print(lit, symbols, Or(a, b)));
  }

  lemma NumberOk(lit: IpSyntax, k: Kind, n: nat)
    requires k.KPid? || k.KPort? || k.KLocalPort? || k.KRemotePort?
    requires n < if k.KPid? then 0x1_0000_0000 else 0x1_0000
    ensures ArgOk(lit, k, Decimal(n))
    ensures Meaning(lit, k, Decimal(n)) == Some(
      if k.KPid? then ExprPid(n) else if k.KPort? then ExprPort(n) else if k.KLocalPort? then ExprLocalPort(n)
      else ExprRemotePort(n))
  {
    DecimalRoundTrip(n);
    hide NumberOf;
    hide Decimal;
  }

  lemma CanonLeafOk(lit: IpSyntax, e: Expr)
    requires LitRoundTrips(lit) && IsLeaf(e)
    ensures LeafOk(lit, CanonLeaf(lit, e)) && LeafExpr(lit, CanonLeaf(lit, e)) == e
  {
    hide NumberOf;
    hide Decimal;
    if e.ExprPid? {
      NumberOk(lit, KPid, e.pid);
    } else if e.ExprPort? {
      NumberOk(lit, KPort, e.port);
    } else if e.ExprLocalPort? {
      NumberOk(lit, KLocalPort, e.port);
    } else if e.ExprRemotePort? {
      NumberOk(lit, KRemotePort, e.port);
    } else if e.ExprAddr? || e.ExprLocalAddr? || e.ExprRemoteAddr? {
      assert LitOk(lit, e.addr);
    }
  }

  lemma {:induction false} CanonOk(lit: IpSyntax, symbols: bool, e: Expr)
    requires LitRoundTrips(lit)
    ensures ChainOk(lit, Canon(lit, symbols, e)) && ChainExpr(lit, Canon(lit, symbols, e)) == e
    decreases e, 1
  {
    hide LitRoundTrips;
    hide LeafOk;
    hide LeafExpr;
    match e {
      case And(a, b) =>
        CanonOk(lit, symbols, a);
        CanonAtomOk(lit, symbols, b);
      case Or(a, b) =>
        CanonOk(lit, symbols, a);
        CanonAtomOk(lit, symbols, b);
      case _ => CanonAtomOk(lit, symbols, e);
    }
  }

  lemma {:induction false} CanonAtomOk(lit: IpSyntax, symbols: bool, e: Expr)
    requires LitRoundTrips(lit)
    ensures AtomOk(lit, CanonAtom(lit, symbols, e)) && AtomExpr(lit, CanonAtom(lit, symbols, e)) == e
    decreases e, if e.And? || e.Or? then 2 else 0
  {
    hide LitRoundTrips;
    hide LeafOk;
    hide LeafExpr;
    match e {
      case Not(a) =>
        if IsLeaf(a) { CanonLeafOk(lit, a); } else { CanonOk(lit, symbols, a); }
      case And(_, _) => CanonOk(lit, symbols, e);
      case Or(_, _) => CanonOk(lit, symbols, e);
      case _ => CanonLeafOk(lit, e);
    }
  }

  /** Every expression, printed with either spelling, parses back to itself, and all of the text is taken. */
  lemma RoundTrip(lit: IpSyntax, symbols: bool, e: Expr)
    requires LitRoundTrips(lit)
    ensures Parse(lit, Print(lit, symbols, e)) == Some(e)
  {
    CanonOk(lit, symbols, e);
    PrintIsText(lit, symbols, e);
    hide Print;
    hide ChainText;
    hide ChainOk;
    hide Canon;
    var c := Canon(lit, symbols, e);
    assert "" + ChainText(c) == ChainText(c);
    FilterParses(lit, "", c);
  }

  /** An operand with an argument of the right characters is accepted exactly if the argument has a meaning:
      numbers out of range and malformed addresses are rejected. */
  lemma OperandTextMeans(lit: IpSyntax, k: Kind, arg: string)
    requires HasArg(k) && forall i | 0 <= i < |arg| :: if IsAddrKind(k) then IsAddrChar(arg[i]) else IsDigit(arg[i])
    ensures Parse(lit, Keyword(k) + (arg + "]")) == Meaning(lit, k, arg)
  {
    hide Meaning;
    var s := Keyword(k) + (arg + "]");
    if Meaning(lit, k, arg).Some? {
      var l := Leaf(k, arg, "");
      assert LeafText(l) == s && "" + s == s;
      assert ArgOk(lit, k, arg) && LeafOk(lit, l);
      assert AtomOk(lit, Plain(l)) && ChainOk(lit, One(Plain(l)));
      FilterParses(lit, "", One(Plain(l)));
    } else {
      assert s[0] == Keyword(k)[0];
      OnlyOperand(lit, s);
      KeywordFirst(k, arg + "]");
      OperandIs(lit, k, s);
      SpanTaken(k, arg);
      assert ParseRest(lit, k, arg + "]") == Fail by { assert (arg + "]")[..|arg|] == arg; }
      assert s[|Keyword(k)|..] == arg + "]";
      hide Operand;
      hide AtomOf;
    }
  }

  lemma SpanTaken(k: Kind, arg: string)
    requires HasArg(k) && forall i | 0 <= i < |arg| :: if IsAddrKind(k) then IsAddrChar(arg[i]) else IsDigit(arg[i])
    ensures ArgSpan(k, arg + "]") == |arg|
  {
    if IsAddrKind(k) { AddrSpanIs(arg, "]"); } else { DigitSpanIs(arg, "]"); }
  }

  /** The characters of the tokens. */
  lemma TokenCharacters(c: char)
    ensures IsBlank(c) <==> c in " \t"
    ensures IsDigit(c) <==> c in "0123456789"
    ensures IsAddrChar(c) <==> c in "0123456789abcdefABCDEF:."
  {
    if '0' <= c <= '9' {
      assert c in "0123456789" by { DigitsListed(c); }
    }
    assert c in "0123456789abcdefABCDEF:." <==> c in "0123456789" || c in "abcdefABCDEF:." by { ListsJoined(c); }
  }

  lemma DigitsListed(c: char)
    requires '0' <= c <= '9'
    ensures c in "0123456789"
  {
    var k := (c - '0') as int;
    assert "0123456789"[k] == c;
  }

  lemma ListsJoined(c: char)
    ensures c in "0123456789abcdefABCDEF:." <==> c in "0123456789" || c in "abcdefABCDEF:."
  {
    assert "0123456789abcdefABCDEF:." == "0123456789" + "abcdefABCDEF:.";
  }

  /** All characters are among the given ones. */
  ghost predicate Over(s: string, chars: string) {
    forall i | 0 <= i < |s| :: s[i] in chars
  }

  /** The process id operand, written out: any number of 32 bits. */
  lemma PidTexts(lit: IpSyntax, digits: string)
    requires Over(digits, "0123456789")
    ensures Parse(lit, "pid[" + (digits + "]"))
         == if digits != "" && NumberOf(digits) <= 4294967295 then Some(ExprPid(NumberOf(digits))) else None
  {
    AllDigits(digits);
    hide Parse;
    OperandTextMeans(lit, KPid, digits);
    hide NumberOf;
  }

  /** The port operands: any number of 16 bits. */
  lemma PortTexts(lit: IpSyntax, digits: string)
    requires Over(digits, "0123456789")
    ensures var n, isPort := NumberOf(digits), digits != "" && NumberOf(digits) <= 65535;
            && Parse(lit, "port[" + (digits + "]")) == (if isPort then Some(ExprPort(n)) else None)
            && Parse(lit, "lport[" + (digits + "]")) == (if isPort then Some(ExprLocalPort(n)) else None)
            && Parse(lit, "rport[" + (digits + "]")) == (if isPort then Some(ExprRemotePort(n)) else None)
  {
    hide Parse;
    hide NumberOf;
    hide IsDigit;
    hide Over;
    PortText(lit, KPort, digits);
    PortText(lit, KLocalPort, digits);
    PortText(lit, KRemotePort, digits);
  }

  lemma PortText(lit: IpSyntax, k: Kind, digits: string)
    requires k == KPort || k == KLocalPort || k == KRemotePort
    requires Over(digits, "0123456789")
    ensures Parse(lit, Keyword(k) + (digits + "]")) ==
      if digits == "" || NumberOf(digits) > 65535 then None
      else Some(if k == KPort then ExprPort(NumberOf(digits)) else if k == KLocalPort then ExprLocalPort(NumberOf(digits))
                else ExprRemotePort(NumberOf(digits)))
  {
    hide Parse;
    hide NumberOf;
    hide Keyword;
    AllDigits(digits);
    OperandTextMeans(lit, k, digits);
  }

  /** The address operands: every literal over digits, hexadecimal letters, ':' and '.' that is an address. */
  lemma AddressTexts(lit: IpSyntax, literal: string)
    requires Over(literal, "0123456789abcdefABCDEF:.")
    ensures var ip := if literal == "" then None else lit.parse(literal);
            && Parse(lit, "addr[" + (literal + "]")) == (if ip.Some? then Some(ExprAddr(ip.value)) else None)
            && Parse(lit, "laddr[" + (literal + "]")) == (if ip.Some? then Some(ExprLocalAddr(ip.value)) else None)
            && Parse(lit, "raddr[" + (literal + "]")) == (if ip.Some? then Some(ExprRemoteAddr(ip.value)) else None)
  {
    forall i | 0 <= i < |literal| ensures IsAddrChar(literal[i]) {
      TokenCharacters(literal[i]);
    }
    hide Parse;
    OperandTextMeans(lit, KAddr, literal);
    OperandTextMeans(lit, KLocalAddr, literal);
    OperandTextMeans(lit, KRemoteAddr, literal);
  }

  lemma AllDigits(digits: string)
    requires Over(digits, "0123456789")
    ensures forall i | 0 <= i < |digits| :: IsDigit(digits[i])
  {
    forall i | 0 <= i < |digits| ensures IsDigit(digits[i]) {
      TokenCharacters(digits[i]);
    }
  }

  /** A digit appended to a number is worth one, and what was there ten times as much. */
  lemma NumbersAreDecimal(digits: string, k: nat)
    requires k < 10
    ensures NumberOf(digits + [("0123456789")[k]]) == 10 * NumberOf(digits) + k
    ensures NumberOf("") == 0
  {
    var s := digits + ["0123456789"[k]];
    assert s[..|s| - 1] == digits;
  }

  // ---- One alternative at a time ----

  /** At each position at most one alternative of `operand` can match, so their order does not matter. */
  lemma AlternativesExclusive(lit: IpSyntax, j: Kind, k: Kind, s: string)
    requires ParseKind(lit, j, s).Ok? && ParseKind(lit, k, s).Ok?
    ensures j == k
  {
    KeywordsExclusive(j, k, SkipWs(s));
  }

  lemma {:induction false} OrderIrrelevant(lit: IpSyntax, kinds: seq<Kind>, k: Kind, s: string)
    requires k in kinds && ParseKind(lit, k, s).Ok?
    ensures FirstOf(lit, kinds, s) == ParseKind(lit, k, s)
  {
    hide ParseKind;
    if ParseKind(lit, kinds[0], s).Ok? {
      AlternativesExclusive(lit, kinds[0], k, s);
    } else {
      OrderIrrelevant(lit, kinds[1..], k, s);
    }
  }

  // ---- Chains ----

  /** An operator with its white space and the atom after it. */
  datatype Link = Link(before: string, op: Spelling, after: string, atom: Atom)

  function Build(first: Atom, links: seq<Link>): Chain {
    if links == [] then One(first)
    else
      var l := links[|links| - 1];
      More(Build(first, links[..|links| - 1]), l.before, l.op, l.after, l.atom)
  }

  ghost predicate LinkOk(lit: IpSyntax, l: Link) {
    Blank(l.before) && Blank(l.after) && AtomOk(lit, l.atom)
  }

  /** Truth values from left to right, with no precedence between the two operators. */
  function LeftFold(acc: bool, rest: seq<(bool, bool)>): bool
    decreases |rest|
  {
    if rest == [] then acc
    else LeftFold(if rest[0].0 then acc && rest[0].1 else acc || rest[0].1, rest[1..])
  }

  ghost function LinkTruth(lit: IpSyntax, p: Packet, l: Link): (bool, bool)
    requires LinkOk(lit, l)
  {
    (IsAnd(l.op), Eval(p, AtomExpr(lit, l.atom)))
  }

  ghost predicate LinksOk(lit: IpSyntax, links: seq<Link>) {
    forall k | 0 <= k < |links| :: LinkOk(lit, links[k])
  }

  ghost function Truths(lit: IpSyntax, p: Packet, links: seq<Link>): (r: seq<(bool, bool)>)
    requires LinksOk(lit, links)
  {
    seq(|links|, k requires 0 <= k < |links| && LinkOk(lit, links[k]) => LinkTruth(lit, p, links[k]))
  }

  lemma {:induction false} LeftFoldSnoc(acc: bool, rest: seq<(bool, bool)>, x: (bool, bool))
    ensures LeftFold(acc, rest + [x]) == if x.0 then LeftFold(acc, rest) && x.1 else LeftFold(acc, rest) || x.1
    decreases |rest|
  {
    if rest != [] {
      assert (rest + [x])[1..] == rest[1..] + [x];
      LeftFoldSnoc(if rest[0].0 then acc && rest[0].1 else acc || rest[0].1, rest[1..], x);
    } else {
      assert ([x])[1..] == [] && rest + [x] == [x];
    }
  }

  lemma LeftFoldEmpty(acc: bool)
    ensures LeftFold(acc, []) == acc
  {
  }

  lemma {:induction false} BuildOk(lit: IpSyntax, p: Packet, first: Atom, links: seq<Link>)
    requires AtomOk(lit, first) && LinksOk(lit, links)
    ensures ChainOk(lit, Build(first, links))
    ensures Eval(p, ChainExpr(lit, Build(first, links)))
         == LeftFold(Eval(p, AtomExpr(lit, first)), Truths(lit, p, links))
  {
    hide AtomOk;
    hide AtomExpr;
    hide Blank;
    hide LeftFold;
    if links == [] {
      LeftFoldEmpty(Eval(p, AtomExpr(lit, first)));
    } else {
      var init, l := links[..|links| - 1], links[|links| - 1];
      BuildOk(lit, p, first, init);
      assert LinkOk(lit, l);
      var x := LinkTruth(lit, p, l);
      assert Truths(lit, p, links) == Truths(lit, p, init) + [x];
      LeftFoldSnoc(Eval(p, AtomExpr(lit, first)), Truths(lit, p, init), x);
    }
  }

  /** For every list of operands and every mix of "and", "&&", "or" and "||", parsing the unparenthesised
      text and evaluating the result folds the operands' truth values from the left. */
  lemma UnparenthesisedIsLeftFold(lit: IpSyntax, p: Packet, first: Atom, links: seq<Link>)
    requires AtomOk(lit, first) && LinksOk(lit, links)
    ensures var r := Parse(lit, ChainText(Build(first, links)));
            && r.Some?
            && Eval(p, r.value) == LeftFold(Eval(p, AtomExpr(lit, first)), Truths(lit, p, links))
  {
    BuildOk(lit, p, first, links);
    hide ChainText;
    hide ChainOk;
    hide AtomOk;
    hide Build;
    var c := Build(first, links);
    assert "" + ChainText(c) == ChainText(c);
    FilterParses(lit, "", c);
  }

  // ---- White space at the ends ----

  lemma RejectsLead(lit: IpSyntax, lead: string, s: string)
    requires Blank(lead) && lead != "" && s != "" && (s[0] == 'n' || s[0] == '!' || s[0] == '(')
    ensures Parse(lit, lead + s) == None
  {
    var t := lead + s;
    assert t[0] == lead[0] && IsBlank(t[0]);
    OnlyOperand(lit, t);
    SkipBlank(lead, s);
    forall k ensures !(Keyword(k) <= SkipWs(t)) {
      if Keyword(k) <= s { KeywordChars(k, s); }
    }
    hide Keyword;
    hide AtomOf;
    hide FirstOf;
    NoChoice(lit, Kinds(), t);
  }

  lemma {:induction false} FirstChar(c: Chain, tail: string)
    requires !FirstAtom(c).Plain?
    ensures var t := ChainText(c) + tail; t != "" && (t[0] == 'n' || t[0] == '!' || t[0] == '(')
  {
    match c {
      case One(a) =>
        var t := AtomText(a) + tail;
        match a {
          case NotLeaf(bang, _, _) => assert t[0] == NotText(bang)[0];
          case NotGroup(bang, _, _, _, _, _) => assert t[0] == NotText(bang)[0];
          case Group(_, _, _) => assert t[0] == '(';
        }
      case More(left, before, op, after, right) =>
        MoreText(left, before, op, after, right, tail);
        FirstChar(left, before + (OpText(op) + (after + (AtomText(right) + tail))));
    }
  }

  /** White space may lead a filter exactly if it starts with an operand, and trail it exactly if it does
      not end with a group: " (tcp)" and "(tcp) " are rejected, " tcp" and "not (tcp) " are not. */
  lemma WhiteSpaceAtTheEnds(lit: IpSyntax, lead: string, c: Chain, trail: string)
    requires Blank(lead) && Blank(trail) && ChainOk(lit, c)
    ensures Parse(lit, lead + (ChainText(c) + trail))
         == if (lead == "" || FirstAtom(c).Plain?) && (trail == "" || !LastAtom(c).Group?)
            then Some(ChainExpr(lit, c)) else None
  {
    hide ChainText;
    hide ChainOk;
    var s := ChainText(c) + trail;
    if lead != "" && !FirstAtom(c).Plain? {
      FirstChar(c, trail);
      RejectsLead(lit, lead, s);
    } else {
      ChainParses(lit, c, trail);
      assert trail + "" == trail;
      SkipBlank(trail, "");
      var y := After(LastAtom(c), trail);
      SkipAfter(LastAtom(c), trail);
      LoopStops(lit, ChainExpr(lit, c), y);
      if lead == "" {
        assert lead + s == s;
      } else {
        FirstText(c, trail);
        LeadIgnored(lit, lead, s);
      }
      hide Logic;
      hide Loop;
    }
  }

  lemma LeadIgnored(lit: IpSyntax, lead: string, s: string)
    requires Blank(lead) && lead != ""
    requires s != "" && s[0] != 'n' && s[0] != '!' && s[0] != '(' && !IsBlank(s[0])
    ensures Logic(lit, lead + s) == Logic(lit, s)
  {
    hide Operand;
    var t := lead + s;
    SkipBlank(lead, s);
    SkipOpen(s);
    assert t[0] == lead[0] && IsBlank(t[0]);
    OnlyOperand(lit, t);
    OnlyOperand(lit, s);
    OperandSkips(lit, t);
    hide AtomOf;
    hide Loop;
    hide SkipWs;
  }
}
