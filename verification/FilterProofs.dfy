/** The parser and the grammar define the same language with the same meaning. */
module FilterProofs {
  import opened Types
  import opened FilterLang
  import opened FilterParser
  import opened FilterGrammar

  // ---- White space and spans ----

  lemma {:induction false} SkipBlank(w: string, s: string)
    requires Blank(w)
    ensures SkipWs(w + s) == SkipWs(s)
  {
    if w == "" {
      assert w + s == s;
    } else {
      assert (w + s)[1..] == w[1..] + s;
      SkipBlank(w[1..], s);
    }
  }

  lemma {:induction false} SkipIsSuffix(s: string) returns (w: string)
    ensures Blank(w) && s == w + SkipWs(s)
    ensures SkipWs(s) == "" || !IsBlank(SkipWs(s)[0])
  {
    if s != [] && IsBlank(s[0]) {
      var v := SkipIsSuffix(s[1..]);
      w := [s[0]] + v;
      assert s == [s[0]] + s[1..];
      assert w + SkipWs(s[1..]) == [s[0]] + (v + SkipWs(s[1..]));
    } else {
      w := "";
    }
  }

  lemma SkipTwice(s: string)
    ensures SkipWs(SkipWs(s)) == SkipWs(s)
  {
    var w := SkipIsSuffix(s);
  }

  lemma {:induction false} DigitSpanIs(d: string, s: string)
    requires (forall i | 0 <= i < |d| :: IsDigit(d[i])) && (s == "" || !IsDigit(s[0]))
    ensures DigitSpan(d + s) == |d|
  {
    if d == "" {
      assert d + s == s;
    } else {
      assert (d + s)[1..] == d[1..] + s;
      DigitSpanIs(d[1..], s);
    }
  }

  lemma {:induction false} AddrSpanIs(d: string, s: string)
    requires (forall i | 0 <= i < |d| :: IsAddrChar(d[i])) && (s == "" || !IsAddrChar(s[0]))
    ensures AddrSpan(d + s) == |d|
  {
    if d == "" {
      assert d + s == s;
    } else {
      assert (d + s)[1..] == d[1..] + s;
      AddrSpanIs(d[1..], s);
    }
  }

  lemma {:induction false} DigitSpanTakes(s: string)
    ensures forall i | 0 <= i < DigitSpan(s) :: IsDigit(s[i])
  {
    if s != [] && IsDigit(s[0]) {
      DigitSpanTakes(s[1..]);
      assert forall i | 1 <= i < DigitSpan(s) :: s[i] == s[1..][i - 1];
    }
  }

  lemma {:induction false} AddrSpanTakes(s: string)
    ensures forall i | 0 <= i < AddrSpan(s) :: IsAddrChar(s[i])
  {
    if s != [] && IsAddrChar(s[0]) {
      AddrSpanTakes(s[1..]);
      assert forall i | 1 <= i < AddrSpan(s) :: s[i] == s[1..][i - 1];
    }
  }

  // ---- Operands ----

  /** No keyword begins another: at each position at most one alternative can match. */
  lemma KeywordsExclusive(j: Kind, k: Kind, s: string)
    requires Keyword(j) <= s && Keyword(k) <= s
    ensures j == k
  {
    KeywordChars(j, s);
    KeywordChars(k, s);
  }

  /** Three characters tell the keywords apart. */
  function Signature(k: Kind): (char, char, char) {
    match k
    case KPid => ('p', 'i', '[')
    case KUdp => ('u', 'd', ' ')
    case KTcp => ('t', 'c', ' ')
    case KIpv4 => ('i', 'p', '4')
    case KIpv6 => ('i', 'p', '6')
    case KPort => ('p', 'o', 't')
    case KLocalPort => ('l', 'p', 'r')
    case KRemotePort => ('r', 'p', 'r')
    case KAddr => ('a', 'd', 'r')
    case KLocalAddr => ('l', 'a', 'd')
    case KRemoteAddr => ('r', 'a', 'd')
  }

  lemma KeywordChars(k: Kind, s: string)
    requires Keyword(k) <= s
    ensures |s| >= 3 && s[0] == Signature(k).0 && s[1] == Signature(k).1
    ensures !k.KUdp? && !k.KTcp? ==> |s| >= 4 && s[3] == Signature(k).2
  {
    var w := Keyword(k);
    assert s[0] == w[0] && s[1] == w[1] && (|w| >= 4 ==> s[3] == w[3]);
  }

  lemma {:induction false} ChoiceIsUnique(lit: IpSyntax, kinds: seq<Kind>, k: Kind, s: string)
    requires Keyword(k) <= SkipWs(s)
    ensures FirstOf(lit, kinds, s) == if k in kinds then ParseKind(lit, k, s) else Fail
  {
    hide Keyword;
    hide ParseRest;
    hide SkipWs;
    if kinds != [] {
      ChoiceIsUnique(lit, kinds[1..], k, s);
      if kinds[0] != k && Keyword(kinds[0]) <= SkipWs(s) {
        KeywordsExclusive(kinds[0], k, SkipWs(s));
      }
    }
  }

  lemma {:induction false} NoChoice(lit: IpSyntax, kinds: seq<Kind>, s: string)
    requires forall k :: !(Keyword(k) <= SkipWs(s))
    ensures FirstOf(lit, kinds, s) == Fail
  {
    hide ParseRest;
    hide SkipWs;
    if kinds != [] {
      NoChoice(lit, kinds[1..], s);
      assert !(Keyword(kinds[0]) <= SkipWs(s));
    }
  }

  lemma KindListed(k: Kind)
    ensures k in Kinds()
  {
    var l := Kinds();
    assert l[0] in l && l[1] in l && l[2] in l && l[3] in l && l[4] in l && l[5] in l;
    assert l[6] in l && l[7] in l && l[8] in l && l[9] in l && l[10] in l;
  }

  lemma OperandIs(lit: IpSyntax, k: Kind, s: string)
    requires Keyword(k) <= SkipWs(s)
    ensures Operand(lit, s) == ParseKind(lit, k, s)
  {
    hide FirstOf;
    hide Keyword;
    KindListed(k);
    ChoiceIsUnique(lit, Kinds(), k, s);
  }

  lemma ArgIsTaken(lit: IpSyntax, k: Kind, arg: string, tail: string)
    requires ArgOk(lit, k, arg) && (HasArg(k) ==> tail != "" && tail[0] == ']')
    ensures ArgSpan(k, arg + tail) == |arg|
  {
    if !HasArg(k) {
    } else if IsAddrKind(k) {
      AddrSpanIs(arg, tail);
    } else {
      DigitSpanIs(arg, tail);
    }
  }

  function Close(k: Kind): string {
    if HasArg(k) then "]" else ""
  }

  lemma LeafTextIs(l: Leaf, tail: string)
    ensures LeafText(l) + tail == Keyword(l.kind) + (l.arg + (Close(l.kind) + (l.trail + tail)))
  {
    hide Keyword;
  }

  lemma RestParses(lit: IpSyntax, l: Leaf, tail: string)
    requires LeafOk(lit, l)
    ensures ParseRest(lit, l.kind, l.arg + (Close(l.kind) + (l.trail + tail))) == Ok(LeafExpr(lit, l), SkipWs(tail))
  {
    var t := Close(l.kind) + (l.trail + tail);
    var s := l.arg + t;
    ArgIsTaken(lit, l.kind, l.arg, t);
    assert s[..|l.arg|] == l.arg && s[|l.arg|..] == t;
    SkipBlank(l.trail, tail);
    hide Meaning;
    hide SkipWs;
    hide ArgSpan;
    if HasArg(l.kind) {
      assert t[1..] == l.trail + tail;
    } else {
      assert t == l.trail + tail;
    }
  }

  /** An operand is read back whole, along with the white space around it. */
  lemma LeafParses(lit: IpSyntax, l: Leaf, tail: string)
    requires LeafOk(lit, l)
    ensures Operand(lit, LeafText(l) + tail) == Ok(LeafExpr(lit, l), SkipWs(tail))
  {
    var t := l.arg + (Close(l.kind) + (l.trail + tail));
    var s := Keyword(l.kind) + t;
    LeafTextIs(l, tail);
    KeywordFirst(l.kind, t);
    OperandIs(lit, l.kind, s);
    assert s[|Keyword(l.kind)|..] == t;
    RestParses(lit, l, tail);
    hide ParseRest;
    hide Operand;
    hide Keyword;
    hide SkipWs;
    hide LeafText;
  }

  lemma KeywordFirst(k: Kind, t: string)
    ensures var s := Keyword(k) + t; Keyword(k) <= s && SkipWs(s) == s
  {
    var s := Keyword(k) + t;
    assert s[0] == Keyword(k)[0];
  }

  lemma RestSound(lit: IpSyntax, k: Kind, t: string) returns (l: Leaf)
    requires ParseRest(lit, k, t).Ok?
    ensures LeafOk(lit, l) && l.kind == k && LeafExpr(lit, l) == ParseRest(lit, k, t).value
    ensures t == l.arg + (Close(k) + (l.trail + ParseRest(lit, k, t).rest))
  {
    hide SkipWs;
    hide ArgSpan;
    hide Meaning;
    var n := ArgSpan(k, t);
    var u := if HasArg(k) then t[n..][1..] else t[n..];
    assert t == t[..n] + (Close(k) + u);
    var trail := SkipIsSuffix(u);
    l := Leaf(k, t[..n], trail);
    SpanIsOk(k, t);
  }

  /** The converse: whatever the rule takes is the text of an operand. */
  lemma KindSound(lit: IpSyntax, k: Kind, s: string) returns (lead: string, l: Leaf)
    requires ParseKind(lit, k, s).Ok?
    ensures Blank(lead) && LeafOk(lit, l) && s == lead + (LeafText(l) + ParseKind(lit, k, s).rest)
    ensures LeafExpr(lit, l) == ParseKind(lit, k, s).value
  {
    hide Keyword;
    hide ParseRest;
    hide LeafOk;
    hide LeafExpr;
    lead := SkipIsSuffix(s);
    hide SkipWs;
    hide Blank;
    var t := Eat(SkipWs(s), Keyword(k)).value;
    l := RestSound(lit, k, t);
    LeafTextIs(l, ParseRest(lit, k, t).rest);
    hide LeafText;
  }

  lemma SpanIsOk(k: Kind, t: string)
    ensures forall i | 0 <= i < ArgSpan(k, t) :: if IsAddrKind(k) then IsAddrChar(t[i]) else IsDigit(t[i])
  {
    AddrSpanTakes(t);
    DigitSpanTakes(t);
  }

  lemma {:induction false} ChoiceSound(lit: IpSyntax, kinds: seq<Kind>, s: string) returns (lead: string, l: Leaf)
    requires FirstOf(lit, kinds, s).Ok?
    ensures Blank(lead) && LeafOk(lit, l) && s == lead + (LeafText(l) + FirstOf(lit, kinds, s).rest)
    ensures LeafExpr(lit, l) == FirstOf(lit, kinds, s).value
  {
    hide ParseKind;
    hide LeafText;
    hide LeafOk;
    if ParseKind(lit, kinds[0], s).Ok? {
      lead, l := KindSound(lit, kinds[0], s);
    } else {
      lead, l := ChoiceSound(lit, kinds[1..], s);
    }
  }

  // ---- Atoms and chains are read back ----

  /** What is left of `tail` after an atom: all but a parenthesised group take white space with them. */
  function After(a: Atom, tail: string): string {
    if a.Group? then tail else SkipWs(tail)
  }

  lemma SkipAfter(a: Atom, tail: string)
    ensures SkipWs(After(a, tail)) == SkipWs(tail)
  {
    SkipTwice(tail);
  }

  lemma {:induction false} AtomFirst(a: Atom, tail: string)
    ensures var s := AtomText(a) + tail;
            && s != "" && SkipWs(s) == s
            && (a.Plain? ==> exists k :: Keyword(k) <= s && s[0] == Signature(k).0)
            && (a.Group? ==> s[0] == '(')
  {
    var s := AtomText(a) + tail;
    match a {
      case Plain(l) =>
        LeafTextIs(l, tail);
        KeywordFirst(l.kind, l.arg + (Close(l.kind) + (l.trail + tail)));
        KeywordChars(l.kind, s);
      case NotLeaf(bang, _, _) => assert s[0] == NotText(bang)[0];
      case NotGroup(bang, _, _, _, _, _) => assert s[0] == NotText(bang)[0];
      case Group(_, _, _) => assert s[0] == '(';
    }
  }

  lemma {:induction false} ChainFirst(c: Chain, tail: string)
    ensures SkipWs(ChainText(c) + tail) == ChainText(c) + tail
  {
    match c {
      case One(a) => AtomFirst(a, tail);
      case More(left, before, op, after, right) =>
        var x := before + (OpText(op) + (after + AtomText(right)));
        assert ChainText(c) + tail == ChainText(left) + (x + tail);
        ChainFirst(left, x + tail);
    }
  }

  lemma NoOperandAt(lit: IpSyntax, s: string)
    requires s != "" && s[0] == '('
    ensures Operand(lit, s) == Fail
  {
    forall k ensures !(Keyword(k) <= SkipWs(s)) {
      if Keyword(k) <= s { KeywordChars(k, s); }
    }
    hide FirstOf;
    hide Keyword;
    NoChoice(lit, Kinds(), s);
  }

  lemma NotIsEaten(bang: bool, t: string)
    ensures NotToken(NotText(bang) + t) == Some(t)
  {
    var s := NotText(bang) + t;
    assert s[0] == NotText(bang)[0];
    assert s[|NotText(bang)|..] == t;
  }

  /** Where neither a negation nor a group begins, an atom is an operand. */
  lemma OnlyOperand(lit: IpSyntax, s: string)
    requires s != "" && s[0] != 'n' && s[0] != '!' && s[0] != '('
    ensures AtomOf(lit, s) == Operand(lit, s)
  {
    hide Operand;
    hide Logic;
    hide SkipWs;
  }

  lemma PlainParses(lit: IpSyntax, l: Leaf, tail: string)
    requires LeafOk(lit, l)
    ensures AtomOf(lit, LeafText(l) + tail) == Ok(LeafExpr(lit, l), SkipWs(tail))
  {
    hide LeafOk;
    AtomFirst(Plain(l), tail);
    OnlyOperand(lit, LeafText(l) + tail);
    LeafParses(lit, l, tail);
    hide AtomOf;
    hide Operand;
  }

  lemma NotLeafParses(lit: IpSyntax, bang: bool, gap: string, l: Leaf, tail: string)
    requires LeafOk(lit, l) && Blank(gap)
    ensures AtomOf(lit, NotText(bang) + (gap + (LeafText(l) + tail))) == Ok(Not(LeafExpr(lit, l)), SkipWs(tail))
  {
    hide LeafOk;
    hide LeafText;
    hide Operand;
    hide NotParens;
    hide SkipWs;
    NotIsEaten(bang, gap + (LeafText(l) + tail));
    hide NotToken;
    SkipBlank(gap, LeafText(l) + tail);
    AtomFirst(Plain(l), tail);
    LeafParses(lit, l, tail);
    SkipTwice(tail);
  }

  lemma NotGroupParses(lit: IpSyntax, bang: bool, gap: string, g: string, e: Expr, u: string)
    requires Blank(gap) && g != "" && g[0] == '(' && Parens(lit, g) == Ok(e, u)
    ensures AtomOf(lit, NotText(bang) + (gap + g)) == Ok(Not(e), SkipWs(u))
  {
    hide Operand;
    hide Parens;
    hide SkipWs;
    NotIsEaten(bang, gap + g);
    hide NotToken;
    SkipBlank(gap, g);
    SkipOpen(g);
    NoOperandAt(lit, g);
  }

  lemma OnlyGroup(lit: IpSyntax, s: string)
    requires s != "" && s[0] == '('
    ensures AtomOf(lit, s) == Parens(lit, s)
  {
    NoOperandAt(lit, s);
    hide Operand;
    hide Parens;
    hide SkipWs;
  }

  lemma {:induction false} AtomParses(lit: IpSyntax, a: Atom, tail: string)
    requires AtomOk(lit, a)
    ensures AtomOf(lit, AtomText(a) + tail) == Ok(AtomExpr(lit, a), After(a, tail))
    decreases a, 0
  {
    hide AtomOf;
    hide Parens;
    hide LeafOk;
    hide LeafText;
    hide SkipWs;
    hide Blank;
    match a {
      case Plain(l) => PlainParses(lit, l, tail);
      case NotLeaf(bang, gap, l) =>
        NotLeafParses(lit, bang, gap, l, tail);
        assert AtomText(a) + tail == NotText(bang) + (gap + (LeafText(l) + tail));
      case NotGroup(bang, gap, open, body, close, trail) =>
        var g := "(" + (open + (ChainText(body) + (close + (")" + (trail + tail)))));
        NotGroupText(a, tail);
        GroupParses(lit, open, body, close, trail + tail);
        NotGroupParses(lit, bang, gap, g, ChainExpr(lit, body), trail + tail);
        SkipBlank(trail, tail);
      case Group(open, body, close) =>
        GroupText(open, body, close, tail);
        OnlyGroup(lit, AtomText(a) + tail);
        GroupParses(lit, open, body, close, tail);
    }
  }

  lemma SkipOpen(s: string)
    requires s != "" && !IsBlank(s[0])
    ensures SkipWs(s) == s
  {}

  lemma {:induction false} GroupParses(lit: IpSyntax, open: string, body: Chain, close: string, tail: string)
    requires Blank(open) && ChainOk(lit, body) && Blank(close)
    ensures Parens(lit, "(" + (open + (ChainText(body) + (close + (")" + tail))))) == Ok(ChainExpr(lit, body), tail)
    decreases body, 2
  {
    hide Logic;
    hide Loop;
    hide SkipWs;
    hide Blank;
    var x := close + (")" + tail);
    var t := open + (ChainText(body) + x);
    assert ("(" + t)[1..] == t;
    SkipBlank(open, ChainText(body) + x);
    ChainFirst(body, x);
    ChainParses(lit, body, x);
    var y := After(LastAtom(body), x);
    SkipAfter(LastAtom(body), x);
    SkipBlank(close, ")" + tail);
    SkipOpen(")" + tail);
    LoopStops(lit, ChainExpr(lit, body), y);
    assert (")" + tail)[1..] == tail;
  }

  lemma LoopStops(lit: IpSyntax, v: Expr, s: string)
    requires SkipWs(s) == "" || SkipWs(s)[0] == ')'
    ensures Loop(lit, v, s) == Ok(v, s)
  {
    hide SkipWs;
    hide AtomOf;
  }

  /** A chain is read by the loop, one operator at a time, whatever follows it. */
  lemma {:induction false} ChainParses(lit: IpSyntax, c: Chain, tail: string)
    requires ChainOk(lit, c)
    ensures Logic(lit, ChainText(c) + tail) == Loop(lit, ChainExpr(lit, c), After(LastAtom(c), tail))
    decreases c, 1
  {
    hide Loop;
    hide AtomOf;
    hide SkipWs;
    hide AtomText;
    match c {
      case One(a) => AtomParses(lit, a, tail);
      case More(left, before, op, after, right) =>
        var u := after + (AtomText(right) + tail);
        var x := before + (OpText(op) + u);
        assert ChainText(c) + tail == ChainText(left) + x;
        ChainParses(lit, left, x);
        AtomParses(lit, right, tail);
        SkipAfter(LastAtom(left), x);
        SkipBlank(before, OpText(op) + u);
        SkipOp(op, u);
        SkipBlank(after, AtomText(right) + tail);
        AtomFirst(right, tail);
        LoopSteps(lit, ChainExpr(lit, left), After(LastAtom(left), x), op, u);
    }
  }

  lemma SkipOp(op: Spelling, u: string)
    ensures SkipWs(OpText(op) + u) == OpText(op) + u
  {
    assert (OpText(op) + u)[0] == OpText(op)[0];
  }

  lemma LoopSteps(lit: IpSyntax, v: Expr, s: string, op: Spelling, u: string)
    requires SkipWs(s) == OpText(op) + u && AtomOf(lit, SkipWs(u)).Ok?
    ensures Loop(lit, v, s) == Loop(lit, Combine(op, v, AtomOf(lit, SkipWs(u)).value), AtomOf(lit, SkipWs(u)).rest)
  {
    hide SkipWs;
    hide AtomOf;
    var t := OpText(op) + u;
    assert t[0] == OpText(op)[0];
    assert t[|OpText(op)|..] == u;
  }

  // ---- Everything the parser takes is in the language ----

  lemma NoLead(lead: string, s: string, t: string)
    requires Blank(lead) && SkipWs(s) == lead + t
    ensures lead == ""
  {
    var w := SkipIsSuffix(s);
  }

  lemma BlankConcat(a: string, b: string)
    requires Blank(a) && Blank(b)
    ensures Blank(a + b)
  {}

  /** White space after an operand can be counted as its own. */
  lemma Absorb(lit: IpSyntax, l: Leaf, u: string) returns (l': Leaf)
    requires LeafOk(lit, l)
    ensures LeafOk(lit, l') && LeafExpr(lit, l') == LeafExpr(lit, l) && LeafText(l) + u == LeafText(l') + SkipWs(u)
  {
    hide Keyword;
    hide SkipWs;
    var w := SkipIsSuffix(u);
    BlankConcat(l.trail, w);
    l' := l.(trail := l.trail + w);
    LeafTextIs(l, u);
    LeafTextIs(l', SkipWs(u));
    assert l.trail + w + SkipWs(u) == l.trail + (w + SkipWs(u));
  }

  lemma NotSound(s: string) returns (bang: bool)
    requires NotToken(s).Some?
    ensures s == NotText(bang) + NotToken(s).value
  {
    bang := Eat(s, "not") == None;
  }

  lemma {:induction false} AtomSound(lit: IpSyntax, s: string) returns (lead: string, a: Atom)
    requires AtomOf(lit, s).Ok?
    ensures Blank(lead) && AtomOk(lit, a) && s == lead + (AtomText(a) + AtomOf(lit, s).rest)
    ensures AtomExpr(lit, a) == AtomOf(lit, s).value && (lead == "" || a.Plain?)
    decreases |s|, 2
  {
    hide AtomText;
    hide AtomOk;
    hide AtomExpr;
    hide Operand;
    hide Parens;
    hide NotOperand;
    hide NotParens;
    if NotOperand(lit, s).Ok? {
      lead := "";
      a := NotOperandSound(lit, s);
    } else if NotParens(lit, s).Ok? {
      lead := "";
      a := NotParensSound(lit, s);
    } else if Operand(lit, s).Ok? {
      lead, a := OperandSound(lit, s);
    } else {
      lead := "";
      a := ParensSound(lit, s);
    }
    assert "" + (AtomText(a) + AtomOf(lit, s).rest) == AtomText(a) + AtomOf(lit, s).rest;
  }

  lemma OperandSound(lit: IpSyntax, s: string) returns (lead: string, a: Atom)
    requires Operand(lit, s).Ok?
    ensures Blank(lead) && AtomOk(lit, a) && s == lead + (AtomText(a) + Operand(lit, s).rest)
    ensures AtomExpr(lit, a) == Operand(lit, s).value && a.Plain?
  {
    hide FirstOf;
    hide LeafText;
    hide LeafOk;
    hide LeafExpr;
    var l;
    lead, l := ChoiceSound(lit, Kinds(), s);
    a := Plain(l);
  }

  lemma NotOperandSound(lit: IpSyntax, s: string) returns (a: Atom)
    requires NotOperand(lit, s).Ok?
    ensures a.NotLeaf? && AtomOk(lit, a) && s == AtomText(a) + NotOperand(lit, s).rest
    ensures AtomExpr(lit, a) == NotOperand(lit, s).value
  {
    hide LeafText;
    hide LeafOk;
    hide LeafExpr;
    hide FirstOf;
    hide SkipWs;
    var bang := NotSound(s);
    var t := NotToken(s).value;
    hide NotToken;
    var gap := SkipIsSuffix(t);
    var lead, l := ChoiceSound(lit, Kinds(), SkipWs(t));
    var u := Operand(lit, SkipWs(t)).rest;
    NoLead(lead, t, LeafText(l) + u);
    hide Blank;
    var l' := Absorb(lit, l, u);
    a := NotLeaf(bang, gap, l');
    assert "" + (LeafText(l) + u) == LeafText(l) + u;
    NotLeafText(a, SkipWs(u));
    hide NotText;
    hide Operand;
  }

  lemma NotLeafText(a: Atom, v: string)
    requires a.NotLeaf?
    ensures AtomText(a) + v == NotText(a.bang) + (a.gap + (LeafText(a.leaf) + v))
  {
    hide LeafText;
    hide NotText;
  }

  lemma {:induction false} ParensSound(lit: IpSyntax, s: string) returns (a: Atom)
    requires Parens(lit, s).Ok?
    ensures a.Group? && AtomOk(lit, a) && s == AtomText(a) + Parens(lit, s).rest
    ensures AtomExpr(lit, a) == Parens(lit, s).value
    decreases |s|, 0
  {
    hide ChainText;
    hide ChainOk;
    hide ChainExpr;
    hide Logic;
    hide SkipWs;
    var t := Eat(s, "(").value;
    var open := SkipIsSuffix(t);
    var lead, c := ChainSound(lit, SkipWs(t));
    var u := Logic(lit, SkipWs(t)).rest;
    NoLead(lead, t, ChainText(c) + u);
    var close := SkipIsSuffix(u);
    hide Blank;
    var v := Eat(SkipWs(u), ")").value;
    a := Group(open, c, close);
    GroupText(open, c, close, v);
    assert "" + (ChainText(c) + u) == ChainText(c) + u;
    hide AtomText;
  }

  lemma GroupText(open: string, c: Chain, close: string, v: string)
    ensures AtomText(Group(open, c, close)) + v == "(" + (open + (ChainText(c) + (close + (")" + v))))
  {
    hide ChainText;
  }

  lemma {:induction false} NotParensSound(lit: IpSyntax, s: string) returns (a: Atom)
    requires NotParens(lit, s).Ok?
    ensures a.NotGroup? && AtomOk(lit, a) && s == AtomText(a) + NotParens(lit, s).rest
    ensures AtomExpr(lit, a) == NotParens(lit, s).value
    decreases |s|, 1
  {
    hide ChainText;
    hide ChainOk;
    hide ChainExpr;
    hide Parens;
    hide SkipWs;
    var bang := NotSound(s);
    var t := NotToken(s).value;
    var gap := SkipIsSuffix(t);
    assert |t| < |s|;
    hide NotToken;
    var g := ParensSound(lit, SkipWs(t));
    var u := Parens(lit, SkipWs(t)).rest;
    var trail := SkipIsSuffix(u);
    hide Blank;
    a := NotGroup(bang, gap, g.open, g.body, g.close, trail);
    GroupText(g.open, g.body, g.close, u);
    NotGroupText(a, SkipWs(u));
    hide AtomText;
  }

  lemma NotGroupText(a: Atom, v: string)
    requires a.NotGroup?
    ensures AtomText(a) + v
         == NotText(a.bang) + (a.gap + ("(" + (a.open + (ChainText(a.body) + (a.close + (")" + (a.trail + v)))))))
  {
    hide ChainText;
  }

  lemma {:induction false} InfixSound(lit: IpSyntax, s: string, isAnd: bool)
    returns (before: string, op: Spelling, after: string, a: Atom)
    requires (if isAnd then Infix(lit, s, "and", "&&") else Infix(lit, s, "or", "||")).Ok?
    ensures var r := if isAnd then Infix(lit, s, "and", "&&") else Infix(lit, s, "or", "||");
            && Blank(before) && Blank(after) && AtomOk(lit, a) && IsAnd(op) == isAnd
            && s == before + (OpText(op) + (after + (AtomText(a) + r.rest))) && AtomExpr(lit, a) == r.value
    decreases |s|, 0
  {
    hide AtomText;
    hide AtomOk;
    hide AtomExpr;
    hide AtomOf;
    hide SkipWs;
    before := SkipIsSuffix(s);
    var word, symbol := if isAnd then "and" else "or", if isAnd then "&&" else "||";
    var t := EatEither(SkipWs(s), word, symbol).value;
    op := if word <= SkipWs(s) then (if isAnd then WordAnd else WordOr) else (if isAnd then SymAnd else SymOr);
    assert SkipWs(s) == OpText(op) + t;
    after := SkipIsSuffix(t);
    var lead;
    lead, a := AtomSound(lit, SkipWs(t));
    var rest := AtomOf(lit, SkipWs(t)).rest;
    NoLead(lead, t, AtomText(a) + rest);
    assert "" + (AtomText(a) + rest) == AtomText(a) + rest;
    hide Blank;
    hide OpText;
  }

  lemma {:induction false} LoopSound(lit: IpSyntax, c: Chain, s: string) returns (c': Chain)
    requires ChainOk(lit, c)
    ensures ChainOk(lit, c') && FirstAtom(c') == FirstAtom(c)
    ensures var r := Loop(lit, ChainExpr(lit, c), s);
            ChainText(c) + s == ChainText(c') + r.rest && r.value == ChainExpr(lit, c')
    decreases |s|, 1
  {
    hide Infix;
    hide AtomText;
    hide AtomOk;
    hide AtomExpr;
    var o, n := Infix(lit, s, "or", "||"), Infix(lit, s, "and", "&&");
    if o.Ok? || n.Ok? {
      var isAnd := !o.Ok?;
      var r := if isAnd then n else o;
      var before, op, after, a := InfixSound(lit, s, isAnd);
      var next := More(c, before, op, after, a);
      hide Blank;
      MoreText(c, before, op, after, a, r.rest);
      c' := LoopSound(lit, next, r.rest);
    } else {
      c' := c;
    }
  }

  lemma MoreText(c: Chain, before: string, op: Spelling, after: string, a: Atom, v: string)
    ensures ChainText(More(c, before, op, after, a)) + v
         == ChainText(c) + (before + (OpText(op) + (after + (AtomText(a) + v))))
  {
    hide OpText;
    hide AtomText;
  }

  lemma {:induction false} ChainSound(lit: IpSyntax, s: string) returns (lead: string, c: Chain)
    requires Logic(lit, s).Ok?
    ensures FilterOk(lit, lead, c) && s == lead + (ChainText(c) + Logic(lit, s).rest)
    ensures ChainExpr(lit, c) == Logic(lit, s).value
    decreases |s|, 3
  {
    hide AtomOf;
    hide Loop;
    hide AtomText;
    hide AtomOk;
    hide AtomExpr;
    var a;
    lead, a := AtomSound(lit, s);
    c := LoopSound(lit, One(a), AtomOf(lit, s).rest);
    hide Blank;
  }

  // ---- The theorems ----

  /** The parser accepts exactly the texts of the language, each with the expression it stands for: no
      ordered choice hides a parse and no backtracking finds another. */
  lemma ParseIffDenotes(lit: IpSyntax, s: string, e: Expr)
    ensures Parse(lit, s) == Some(e) <==> Denotes(lit, s, e)
  {
    if Parse(lit, s) == Some(e) {
      var lead, c := ChainSound(lit, s);
      assert s == lead + ChainText(c) by { assert ChainText(c) + "" == ChainText(c); }
    }
    if Denotes(lit, s, e) {
      var lead, c :| FilterOk(lit, lead, c) && s == lead + ChainText(c) && ChainExpr(lit, c) == e;
      FilterParses(lit, lead, c);
    }
  }

  lemma FilterParses(lit: IpSyntax, lead: string, c: Chain)
    requires FilterOk(lit, lead, c)
    ensures Parse(lit, lead + ChainText(c)) == Some(ChainExpr(lit, c))
  {
    var s := lead + ChainText(c);
    assert ChainText(c) + "" == ChainText(c);
    ChainParses(lit, c, "");
    assert After(LastAtom(c), "") == "";
    LoopStops(lit, ChainExpr(lit, c), "");
    if lead == "" {
      assert s == ChainText(c);
    } else {
      LeadSkipped(lit, lead, c);
    }
    hide Logic;
    hide Loop;
  }

  /** Leading white space belongs to the first operand. */
  lemma LeadSkipped(lit: IpSyntax, lead: string, c: Chain)
    requires Blank(lead) && lead != "" && FirstAtom(c).Plain?
    ensures Logic(lit, lead + ChainText(c)) == Logic(lit, ChainText(c))
  {
    hide ChainText;
    hide Operand;
    var s, t := lead + ChainText(c), ChainText(c);
    FirstText(c, "");
    assert t + "" == t;
    SkipBlank(lead, t);
    SkipOpen(t);
    assert s[0] == lead[0] && IsBlank(s[0]);
    OnlyOperand(lit, s);
    OnlyOperand(lit, t);
    OperandSkips(lit, s);
    hide AtomOf;
    hide Loop;
    hide SkipWs;
  }

  /** A chain that begins with an operand begins with a letter of a keyword. */
  lemma {:induction false} FirstText(c: Chain, tail: string)
    requires FirstAtom(c).Plain?
    ensures var t := ChainText(c) + tail;
            t != "" && t[0] != 'n' && t[0] != '!' && t[0] != '(' && !IsBlank(t[0])
  {
    hide AtomText;
    match c {
      case One(a) => AtomFirst(a, tail);
      case More(left, before, op, after, right) =>
        MoreText(left, before, op, after, right, tail);
        FirstText(left, before + (OpText(op) + (after + (AtomText(right) + tail))));
    }
  }

  lemma OperandSkips(lit: IpSyntax, s: string)
    ensures Operand(lit, SkipWs(s)) == Operand(lit, s)
  {
    ChoiceSkips(lit, Kinds(), s);
  }

  lemma {:induction false} ChoiceSkips(lit: IpSyntax, kinds: seq<Kind>, s: string)
    ensures FirstOf(lit, kinds, SkipWs(s)) == FirstOf(lit, kinds, s)
  {
    hide Keyword;
    SkipTwice(s);
    if kinds != [] {
      ChoiceSkips(lit, kinds[1..], s);
    }
  }
}
