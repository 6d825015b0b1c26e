/** The PEG grammar of the filter language at character level (`ptraf-filter/src/frontend.rs`): ordered
    choice, backtracking and the `precedence!` block, whose two infix operators share one level. A
    parser takes the input from some position and returns what is left of it. */
module FilterParser {
  import opened Types
  import opened FilterLang

  /** The standard library's address literals: a parser and a printer. */
  datatype IpSyntax = IpSyntax(parse: string -> Option<StdIp>, show: StdIp -> string)

  datatype ParseResult<+T> = Fail | Ok(value: T, rest: string)

  // ---- Tokens ----

  predicate IsBlank(c: char) {
    c == ' ' || c == '\t'
  }

  /** The rule `_`. */
  function SkipWs(s: string): (r: string)
    ensures |r| <= |s|
  {
    if s != [] && IsBlank(s[0]) then SkipWs(s[1..]) else s
  }

  function Eat(s: string, token: string): (r: Option<string>)
    ensures r.Some? <==> token <= s
    ensures r.Some? ==> s == token + r.value
  {
    if token <= s then Some(s[|token|..]) else None
  }

  function EatEither(s: string, first: string, second: string): Option<string> {
    var r := Eat(s, first);
    if r.Some? then r else Eat(s, second)
  }

  predicate IsDigit(c: char) {
    '0' <= c <= '9'
  }

  predicate IsAddrChar(c: char) {
    IsDigit(c) || 'a' <= c <= 'f' || 'A' <= c <= 'F' || c == ':' || c == '.'
  }

  /** How many characters `['0'..='9']+` takes, greedily. */
  function DigitSpan(s: string): (n: nat)
    ensures n <= |s|
  {
    if s != [] && IsDigit(s[0]) then 1 + DigitSpan(s[1..]) else 0
  }

  function AddrSpan(s: string): (n: nat)
    ensures n <= |s|
  {
    if s != [] && IsAddrChar(s[0]) then 1 + AddrSpan(s[1..]) else 0
  }

  /** The number that a string of digits denotes; leading zeros are allowed. */
  function NumberOf(digits: string): nat {
    if digits == [] then 0
    else
      var c := digits[|digits| - 1];
      NumberOf(digits[..|digits| - 1]) * 10 + if IsDigit(c) then (c - '0') as nat else 0
  }

  // ---- Operands ----

  datatype Kind =
    | KPid | KUdp | KTcp | KIpv4 | KIpv6
    | KPort | KLocalPort | KRemotePort
    | KAddr | KLocalAddr | KRemoteAddr

  function Keyword(k: Kind): string {
    match k
    case KPid => "pid["
    case KUdp => "udp"
    case KTcp => "tcp"
    case KIpv4 => "ipv4"
    case KIpv6 => "ipv6"
    case KPort => "port["
    case KLocalPort => "lport["
    case KRemotePort => "rport["
    case KAddr => "addr["
    case KLocalAddr => "laddr["
    case KRemoteAddr => "raddr["
  }

  /** The argument between the brackets, as a span of the input. */
  predicate HasArg(k: Kind) {
    !(k.KUdp? || k.KTcp? || k.KIpv4? || k.KIpv6?)
  }

  predicate IsAddrKind(k: Kind) {
    k.KAddr? || k.KLocalAddr? || k.KRemoteAddr?
  }

  function ArgSpan(k: Kind, s: string): (n: nat)
    ensures n <= |s|
  {
    if !HasArg(k) then 0 else if IsAddrKind(k) then AddrSpan(s) else DigitSpan(s)
  }

  /** The expression for an argument, unless it is empty, out of range or not an address. */
  function Meaning(lit: IpSyntax, k: Kind, arg: string): Option<Expr> {
    if !HasArg(k) then
      if arg != "" then None
      else
        match k
        case KUdp => Some(ExprProtocol(Udp))
        case KTcp => Some(ExprProtocol(Tcp))
        case KIpv4 => Some(ExprIpVersion(IpV4))
        case _ => Some(ExprIpVersion(IpV6))
    else if arg == "" then None
    else if IsAddrKind(k) then
      match lit.parse(arg)
      case None => None
      case Some(ip) =>
        Some(if k.KAddr? then ExprAddr(ip) else if k.KLocalAddr? then ExprLocalAddr(ip) else ExprRemoteAddr(ip))
    else if k.KPid? then
      if NumberOf(arg) < 0x1_0000_0000 then Some(ExprPid(NumberOf(arg))) else None
    else if NumberOf(arg) < 0x1_0000 then
      var n := NumberOf(arg);
      Some(if k.KPort? then ExprPort(n) else if k.KLocalPort? then ExprLocalPort(n) else ExprRemotePort(n))
    else None
  }

  /** After the keyword: the argument and its closing bracket, then white space. */
  function ParseRest(lit: IpSyntax, k: Kind, s: string): (r: ParseResult<Expr>)
    ensures r.Ok? ==> |r.rest| <= |s|
  {
    var n := ArgSpan(k, s);
    match Meaning(lit, k, s[..n])
    case None => Fail
    case Some(e) =>
      if !HasArg(k) then Ok(e, SkipWs(s[n..]))
      else
        match Eat(s[n..], "]")
        case None => Fail
        case Some(t) => Ok(e, SkipWs(t))
  }

  function ParseKind(lit: IpSyntax, k: Kind, s: string): (r: ParseResult<Expr>)
    ensures r.Ok? ==> |r.rest| < |s|
  {
    match Eat(SkipWs(s), Keyword(k))
    case None => Fail
    case Some(t) => ParseRest(lit, k, t)
  }

  /** The order of the alternatives in the rule `operand`. */
  function Kinds(): seq<Kind> {
    [KPid, KUdp, KTcp, KIpv4, KIpv6, KPort, KLocalPort, KRemotePort, KAddr, KLocalAddr, KRemoteAddr]
  }

  /** Ordered choice: the first alternative that matches. */
  function FirstOf(lit: IpSyntax, kinds: seq<Kind>, s: string): (r: ParseResult<Expr>)
    ensures r.Ok? ==> |r.rest| < |s|
  {
    if kinds == [] then Fail
    else
      var r := ParseKind(lit, kinds[0], s);
      if r.Ok? then r else FirstOf(lit, kinds[1..], s)
  }

  function Operand(lit: IpSyntax, s: string): (r: ParseResult<Expr>)
    ensures r.Ok? ==> |r.rest| < |s|
  {
    FirstOf(lit, Kinds(), s)
  }

  // ---- The precedence block ----

  function NotToken(s: string): Option<string> {
    EatEither(s, "not", "!")
  }

  /** `("not" / "!") _ e:operand() _` */
  function NotOperand(lit: IpSyntax, s: string): (r: ParseResult<Expr>)
    ensures r.Ok? ==> |r.rest| < |s|
  {
    match NotToken(s)
    case None => Fail
    case Some(t) =>
      match Operand(lit, SkipWs(t))
      case Fail => Fail
      case Ok(e, u) => Ok(Not(e), SkipWs(u))
  }

  /** `"(" _ e:logic() _ ")"` */
  function Parens(lit: IpSyntax, s: string): (r: ParseResult<Expr>)
    ensures r.Ok? ==> |r.rest| < |s|
    decreases |s|, 0
  {
    match Eat(s, "(")
    case None => Fail
    case Some(t) =>
      match Logic(lit, SkipWs(t))
      case Fail => Fail
      case Ok(e, u) =>
        match Eat(SkipWs(u), ")")
        case None => Fail
        case Some(v) => Ok(e, v)
  }

  /** `("not" / "!") _ "(" _ e:logic() _ ")" _` */
  function NotParens(lit: IpSyntax, s: string): (r: ParseResult<Expr>)
    ensures r.Ok? ==> |r.rest| < |s|
    decreases |s|, 1
  {
    match NotToken(s)
    case None => Fail
    case Some(t) =>
      match Parens(lit, SkipWs(t))
      case Fail => Fail
      case Ok(e, u) => Ok(Not(e), SkipWs(u))
  }

  /** The operands of the infix operators, in the order in which they are tried. */
  function AtomOf(lit: IpSyntax, s: string): (r: ParseResult<Expr>)
    ensures r.Ok? ==> |r.rest| < |s|
    decreases |s|, 2
  {
    var a := NotOperand(lit, s);
    if a.Ok? then a
    else
      var b := NotParens(lit, s);
      if b.Ok? then b
      else
        var c := Operand(lit, s);
        if c.Ok? then c else Parens(lit, s)
  }

  /** One infix step: `_ (first / second) _` and an atom. */
  function Infix(lit: IpSyntax, s: string, first: string, second: string): (r: ParseResult<Expr>)
    requires first != "" && second != ""
    ensures r.Ok? ==> |r.rest| < |s|
    decreases |s|, 0
  {
    match EatEither(SkipWs(s), first, second)
    case None => Fail
    case Some(t) => AtomOf(lit, SkipWs(t))
  }

  /** The loop of the precedence block: both operators associate to the left, `or` is tried first. */
  function Loop(lit: IpSyntax, left: Expr, s: string): (r: ParseResult<Expr>)
    ensures r.Ok? && |r.rest| <= |s|
    decreases |s|, 1
  {
    var o := Infix(lit, s, "or", "||");
    if o.Ok? then Loop(lit, Or(left, o.value), o.rest)
    else
      var a := Infix(lit, s, "and", "&&");
      if a.Ok? then Loop(lit, And(left, a.value), a.rest) else Ok(left, s)
  }

  function Logic(lit: IpSyntax, s: string): (r: ParseResult<Expr>)
    ensures r.Ok? ==> |r.rest| < |s|
    decreases |s|, 3
  {
    match AtomOf(lit, s)
    case Fail => Fail
    case Ok(e, t) => Loop(lit, e, t)
  }

  /** `parser::filter`: the whole input must be taken. */
  function Parse(lit: IpSyntax, s: string): Option<Expr> {
    match Logic(lit, s)
    case Fail => None
    case Ok(e, rest) => if rest == "" then Some(e) else None
  }
}
