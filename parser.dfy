/**
 * The recursive-descent parser of formulas:
 *
 *   Exp  -> Term RExp     RExp  -> or Exp | ε
 *   Term -> Fac RTerm     RTerm -> and Term | ε
 *   Fac  -> not Fac | ( Exp ) | token
 *
 * The tokenizer and the grammar are first given as functions over strings
 * and token lists; the `FormulaParser` class, which consumes its input
 * step by step, is proved to compute exactly those functions.
 */
module Parser {
  import opened Common
  import opened Formulas

  // ------------------------------------------------------------- tokens

  /** JavaScript's `\s`: the ECMAScript white space and line terminators. */
  predicate IsSpace(c: char) {
    c == '\t' || c == '\n' || c == '\U{000B}' || c == '\U{000C}' || c == '\r' || c == ' '
    || c == '\U{00A0}' || c == '\U{1680}' || ('\U{2000}' <= c <= '\U{200A}')
    || c == '\U{2028}' || c == '\U{2029}' || c == '\U{202F}' || c == '\U{205F}'
    || c == '\U{3000}' || c == '\U{FEFF}'
  }

  /** JavaScript's `\w` without the `u` flag: `[A-Za-z0-9_]`. */
  predicate IsWordChar(c: char) {
    ('a' <= c <= 'z') || ('A' <= c <= 'Z') || ('0' <= c <= '9') || c == '_'
  }

  /** What one match of the token pattern can return: a run of word
      characters (the keywords `not`, `or`, `and`, `true`, `false` among
      them) or a single character that is neither a word character nor
      white space, such as a parenthesis. */
  predicate IsToken(t: string) {
    (|t| > 0 && forall k :: 0 <= k < |t| ==> IsWordChar(t[k]))
    || (|t| == 1 && !IsWordChar(t[0]) && !IsSpace(t[0]))
  }

  /** The length of the white space `\s*` skips. */
  function LeadingSpaces(s: string): (n: nat)
    ensures n <= |s|
    ensures forall k :: 0 <= k < n ==> IsSpace(s[k])
    ensures n < |s| ==> !IsSpace(s[n])
  {
    if s == [] || !IsSpace(s[0]) then 0 else 1 + LeadingSpaces(s[1..])
  }

  /** The length of the longest run of word characters `\w+` matches. */
  function WordRun(s: string): (n: nat)
    ensures n <= |s|
    ensures forall k :: 0 <= k < n ==> IsWordChar(s[k])
    ensures n < |s| ==> !IsWordChar(s[n])
  {
    if s == [] || !IsWordChar(s[0]) then 0 else 1 + WordRun(s[1..])
  }

  /** One match of `/^\s*(\bnot\b|\bor\b|\band\b|\(|\)|\btrue\b|\bfalse\b|\w+|\S)/`
      on `s`: the token (group 1) and the input after the whole match, or no
      token and `s` untouched when only white space is left. Every keyword
      alternative matches exactly when `\w+` matches the same word, so a token
      is the whole word run at the first non-space, or else that one
      character. */
  function Lex(s: string): (r: (Option<string>, string))
    ensures r.0.None? <==> forall k :: 0 <= k < |s| ==> IsSpace(s[k])
    ensures r.0.None? ==> r.1 == s
    ensures r.0.Some? ==> IsToken(r.0.value) && s[LeadingSpaces(s)..] == r.0.value + r.1
    ensures r.0.Some? && IsWordChar(r.0.value[0]) ==> r.1 == [] || !IsWordChar(r.1[0])
  {
    var i := LeadingSpaces(s);
    if i == |s| then (None, s)
    else if IsWordChar(s[i]) then
      var n := WordRun(s[i..]);
      assert s[i..] == s[i..][..n] + s[i..][n..];
      (Some(s[i..][..n]), s[i..][n..])
    else
      assert s[i..] == [s[i]] + s[i + 1..];
      (Some([s[i]]), s[i + 1..])
  }

  /** All tokens of `s`, in order. */
  function Tokens(s: string): (ts: seq<string>)
    decreases |s|
    ensures forall k :: 0 <= k < |ts| ==> IsToken(ts[k])
  {
    match Lex(s)
    case (None, _) => []
    case (Some(t), rest) => [t] + Tokens(rest)
  }

  /** Tokens written out with one space between neighbours. */
  function Join(ts: seq<string>): string {
    if ts == [] then "" else if |ts| == 1 then ts[0] else ts[0] + " " + Join(ts[1..])
  }

  /** White space in front changes no token. */
  lemma SpaceThenLex(c: char, s: string)
    requires IsSpace(c)
    ensures Lex([c] + s).0 == Lex(s).0
    ensures Lex(s).0.Some? ==> Lex([c] + s).1 == Lex(s).1
  {
    var t := [c] + s;
    assert t[1..] == s;
    assert LeadingSpaces(t) == 1 + LeadingSpaces(s);
    var i := LeadingSpaces(s);
    if i < |s| {
      var u := s[i..];
      assert t[i + 1..] == u;
      assert t[i + 1] == u[0];
      if IsWordChar(u[0]) {
        var n := WordRun(u);
        assert Lex(s) == (Some(u[..n]), u[n..]);
        assert Lex(t) == (Some(u[..n]), u[n..]);
      } else {
        assert Lex(s) == (Some([u[0]]), s[i + 1..]);
        assert t[i + 2..] == s[i + 1..];
        assert Lex(t) == (Some([u[0]]), s[i + 1..]);
      }
    }
  }

  lemma SpaceThenTokens(c: char, s: string)
    requires IsSpace(c)
    ensures Tokens([c] + s) == Tokens(s)
  {
    SpaceThenLex(c, s);
    var r := Lex(s);
    if r.0.Some? {
      assert Tokens(s) == [r.0.value] + Tokens(r.1);
      assert Tokens([c] + s) == [r.0.value] + Tokens(r.1);
    } else {
      assert Tokens(s) == [];
      assert Tokens([c] + s) == [];
    }
  }

  /** A token followed by white space or by nothing is lexed as itself. */
  lemma LexToken(t: string, rest: string)
    requires IsToken(t) && (rest == [] || IsSpace(rest[0]))
    ensures Lex(t + rest) == (Some(t), rest)
  {
    var s := t + rest;
    assert !IsSpace(t[0]);
    assert LeadingSpaces(s) == 0;
    assert s[0..] == s;
    if IsWordChar(t[0]) {
      assert forall k :: 0 <= k < |t| ==> IsWordChar(s[k]);
      assert |t| < |s| ==> s[|t|] == rest[0];
      assert WordRun(s) == |t|;
      assert s[..|t|] == t && s[|t|..] == rest;
    } else {
      assert s[1..] == rest;
    }
  }

  /** A token and a space in front of some text add just that token. */
  lemma TokenThenSpace(t: string, rest: string)
    requires IsToken(t)
    ensures Tokens(t + " " + rest) == [t] + Tokens(rest)
  {
    LexToken(t, " " + rest);
    assert t + " " + rest == t + (" " + rest);
    SpaceThenTokens(' ', rest);
    assert " " + rest == [' '] + rest;
  }

  /** Tokenizing tokens joined by spaces gives the tokens back. */
  lemma {:induction false} TokensOfJoin(ts: seq<string>)
    requires forall k :: 0 <= k < |ts| ==> IsToken(ts[k])
    ensures Tokens(Join(ts)) == ts
  {
    if ts == [] {
      assert Lex("").0.None?;
    } else if |ts| == 1 {
      LexToken(ts[0], "");
      assert ts[0] + "" == ts[0];
      assert Lex("").0.None?;
    } else {
      TokenThenSpace(ts[0], Join(ts[1..]));
      TokensOfJoin(ts[1..]);
    }
  }

  // ------------------------------------------------------------- grammar

  datatype ParseError =
    | Unexpected(expected: Option<string>, actual: Option<string>)  // from `match`
    | TrailingInput(token: string)                                   // from `parse`

  /** The result of one nonterminal: the formula and the tokens after it. */
  datatype Parsed = Parsed(f: Formula, rest: seq<string>) | Failed(e: ParseError)

  /** The lookahead: the first token, `null` when there is none. */
  function Head(ts: seq<string>): Option<string> {
    if ts == [] then None else Some(ts[0])
  }

  /** The tokens after the lookahead has been consumed (at the end of the
      input the lookahead stays `null`). */
  function Drop1(ts: seq<string>): seq<string> {
    if ts == [] then [] else ts[1..]
  }

  /** The atom a lookahead makes: `new Atom(literal)`. */
  function AtomOf(h: Option<string>): Formula {
    match h
    case None => Atom(Missing)
    case Some(s) => Atom(Named(s))
  }

  /** A nonterminal leaves at most the tokens it was given. */
  predicate ConsumesPrefix(ts: seq<string>, r: Parsed) {
    r.Parsed? ==> |r.rest| <= |ts|
  }

  /** `parseExp`: a term, and `or` and an expression after it if the next
      token is `or`. */
  function PExp(ts: seq<string>): (r: Parsed)
    decreases |ts|, 2
    ensures ConsumesPrefix(ts, r)
  {
    match PTerm(ts)
    case Failed(e) => Failed(e)
    case Parsed(t, rest) =>
      if Head(rest) == Some("or") then
        match PExp(rest[1..])
        case Failed(e) => Failed(e)
        case Parsed(e, rest') => Parsed(Or(t, e), rest')
      else Parsed(t, rest)
  }

  /** `parseTerm`: a factor, and `and` and a term after it if the next token
      is `and`. */
  function PTerm(ts: seq<string>): (r: Parsed)
    decreases |ts|, 1
    ensures ConsumesPrefix(ts, r)
  {
    match PFac(ts)
    case Failed(e) => Failed(e)
    case Parsed(f, rest) =>
      if Head(rest) == Some("and") then
        match PTerm(rest[1..])
        case Failed(e) => Failed(e)
        case Parsed(t, rest') => Parsed(And(f, t), rest')
      else Parsed(f, rest)
  }

  /** `parseFac`: `not` and a factor, a parenthesised expression that must
      be closed, or else whatever the lookahead is as an atom (`null` at the
      end of the input). */
  function PFac(ts: seq<string>): (r: Parsed)
    decreases |ts|, 0
    ensures ConsumesPrefix(ts, r)
  {
    if Head(ts) == Some("not") then
      match PFac(ts[1..])
      case Failed(e) => Failed(e)
      case Parsed(f, rest) => Parsed(Not(f), rest)
    else if Head(ts) == Some("(") then
      match PExp(ts[1..])
      case Failed(e) => Failed(e)
      case Parsed(e, rest) =>
        if Head(rest) == Some(")") then Parsed(e, rest[1..])
        else Failed(Unexpected(Some(")"), Head(rest)))
    else Parsed(AtomOf(Head(ts)), Drop1(ts))
  }

  /** `parse`: an expression that must use up every token. */
  function PParse(ts: seq<string>): (r: Result<Formula, ParseError>)
    ensures r.Ok? ==> PExp(ts) == Parsed(r.value, [])
    ensures r.Err? ==> r.error.TrailingInput? || r.error.expected == Some(")")
    ensures r.Err? && r.error.TrailingInput? ==> r.error.token in ts
  {
    ExpLeavesSuffix(ts);
    match PExp(ts)
    case Failed(e) => Err(e)
    case Parsed(f, rest) => if rest == [] then Ok(f) else Err(TrailingInput(rest[0]))
  }

  /** A nonterminal leaves a suffix of the tokens it was given and takes at
      least one token when there is one. The only way it fails is a `(`
      without its `)`. */
  predicate LeavesSuffix(ts: seq<string>, r: Parsed) {
    (r.Parsed? ==> IsSuffix(r.rest, ts) && (ts != [] ==> |r.rest| < |ts|)) &&
    (r.Failed? ==> r.e.Unexpected? && r.e.expected == Some(")"))
  }

  predicate IsSuffix(u: seq<string>, ts: seq<string>) {
    |u| <= |ts| && u == ts[|ts| - |u|..]
  }

  lemma SuffixOfSuffix(v: seq<string>, u: seq<string>, ts: seq<string>)
    requires IsSuffix(u, ts) && IsSuffix(v, u)
    ensures IsSuffix(v, ts)
  {
  }

  lemma SuffixAfterHead(u: seq<string>, ts: seq<string>)
    requires u != [] && IsSuffix(u, ts)
    ensures IsSuffix(u[1..], ts)
  {
    assert u[1..] == ts[|ts| - |u| + 1..];
  }

  lemma {:induction false} ExpLeavesSuffix(ts: seq<string>)
    decreases |ts|, 2
    ensures LeavesSuffix(ts, PExp(ts))
  {
    TermLeavesSuffix(ts);
    var t := PTerm(ts);
    if t.Parsed? && Head(t.rest) == Some("or") {
      SuffixAfterHead(t.rest, ts);
      ExpLeavesSuffix(t.rest[1..]);
      var e := PExp(t.rest[1..]);
      if e.Parsed? {
        SuffixOfSuffix(e.rest, t.rest[1..], ts);
      }
    }
  }

  lemma {:induction false} TermLeavesSuffix(ts: seq<string>)
    decreases |ts|, 1
    ensures LeavesSuffix(ts, PTerm(ts))
  {
    FacLeavesSuffix(ts);
    var f := PFac(ts);
    if f.Parsed? && Head(f.rest) == Some("and") {
      SuffixAfterHead(f.rest, ts);
      TermLeavesSuffix(f.rest[1..]);
      var t := PTerm(f.rest[1..]);
      if t.Parsed? {
        SuffixOfSuffix(t.rest, f.rest[1..], ts);
      }
    }
  }

  lemma {:induction false} FacLeavesSuffix(ts: seq<string>)
    decreases |ts|, 0
    ensures LeavesSuffix(ts, PFac(ts))
  {
    if Head(ts) == Some("not") {
      var f := PFac(ts[1..]);
      FacLeavesSuffix(ts[1..]);
      if f.Parsed? {
        assert PFac(ts) == Parsed(Not(f.f), f.rest);
        SuffixAfterHead(ts, ts);
        SuffixOfSuffix(f.rest, ts[1..], ts);
      } else {
        assert PFac(ts) == f;
      }
    } else if Head(ts) == Some("(") {
      var e := PExp(ts[1..]);
      ExpLeavesSuffix(ts[1..]);
      if e.Failed? {
        assert PFac(ts) == e;
      } else if Head(e.rest) == Some(")") {
        assert PFac(ts) == Parsed(e.f, e.rest[1..]);
        SuffixAfterHead(ts, ts);
        SuffixOfSuffix(e.rest, ts[1..], ts);
        SuffixAfterHead(e.rest, ts);
      } else {
        assert PFac(ts) == Failed(Unexpected(Some(")"), Head(e.rest)));
      }
    } else {
      assert PFac(ts) == Parsed(AtomOf(Head(ts)), Drop1(ts));
      if ts != [] {
        SuffixAfterHead(ts, ts);
      }
    }
  }

  /** `new FormulaParser(s).parse()`. */
  function ParseString(s: string): Result<Formula, ParseError> {
    PParse(Tokens(s))
  }

  // ------------------------------------------------------- printing back

  /** Formulas the printer below can write: every atom is named by a token
      that `parseFac` does not treat specially. */
  predicate Printable(f: Formula) {
    match f
    case Atom(n) => n.Named? && IsToken(n.s) && n.s != "not" && n.s != "("
    case Not(g) => Printable(g)
    case And(l, r) => Printable(l) && Printable(r)
    case Or(l, r) => Printable(l) && Printable(r)
  }

  /** The tokens of `f` as an expression: a disjunction is written as its
      left side as a term, `or`, and its right side as an expression. */
  function ShowExp(f: Formula): (ts: seq<string>)
    requires Printable(f)
    decreases Size(f), 2
    ensures forall k :: 0 <= k < |ts| ==> IsToken(ts[k])
  {
    if f.Or? then ShowTerm(f.left) + ["or"] + ShowExp(f.right) else ShowTerm(f)
  }

  /** The tokens of `f` as a term. */
  function ShowTerm(f: Formula): (ts: seq<string>)
    requires Printable(f)
    decreases Size(f), if f.Or? then 4 else 1
    ensures forall k :: 0 <= k < |ts| ==> IsToken(ts[k])
  {
    if f.And? then ShowFac(f.left) + ["and"] + ShowTerm(f.right) else ShowFac(f)
  }

  /** The tokens of `f` as a factor: binary formulas in parentheses. */
  function ShowFac(f: Formula): (ts: seq<string>)
    requires Printable(f)
    decreases Size(f), if f.And? || f.Or? then 3 else 0
    ensures forall k :: 0 <= k < |ts| ==> IsToken(ts[k])
  {
    match f
    case Atom(n) => [n.s]
    case Not(g) => ["not"] + ShowFac(g)
    case And(_, _) => ["("] + ShowExp(f) + [")"]
    case Or(_, _) => ["("] + ShowExp(f) + [")"]
  }

  lemma {:induction false} ExpRoundTrip(f: Formula, rest: seq<string>)
    requires Printable(f) && Head(rest) != Some("and") && Head(rest) != Some("or")
    ensures PExp(ShowExp(f) + rest) == Parsed(f, rest)
    decreases Size(f), 2
  {
    if f.Or? {
      var tail := ["or"] + ShowExp(f.right) + rest;
      TermRoundTrip(f.left, tail);
      assert ShowExp(f) + rest == ShowTerm(f.left) + tail;
      assert tail[1..] == ShowExp(f.right) + rest;
      ExpRoundTrip(f.right, rest);
    } else {
      TermRoundTrip(f, rest);
    }
  }

  lemma {:induction false} TermRoundTrip(f: Formula, rest: seq<string>)
    requires Printable(f) && Head(rest) != Some("and")
    ensures PTerm(ShowTerm(f) + rest) == Parsed(f, rest)
    decreases Size(f), if f.Or? then 4 else 1
  {
    if f.And? {
      var tail := ["and"] + ShowTerm(f.right) + rest;
      FacRoundTrip(f.left, tail);
      assert ShowTerm(f) + rest == ShowFac(f.left) + tail;
      assert tail[1..] == ShowTerm(f.right) + rest;
      TermRoundTrip(f.right, rest);
    } else {
      FacRoundTrip(f, rest);
    }
  }

  lemma {:induction false} FacRoundTrip(f: Formula, rest: seq<string>)
    requires Printable(f)
    ensures PFac(ShowFac(f) + rest) == Parsed(f, rest)
    decreases Size(f), if f.And? || f.Or? then 3 else 0
  {
    match f
    case Atom(n) =>
      assert (ShowFac(f) + rest)[1..] == rest;
    case Not(g) =>
      assert (ShowFac(f) + rest)[1..] == ShowFac(g) + rest;
      FacRoundTrip(g, rest);
    case And(_, _) =>
      ExpRoundTrip(f, [")"] + rest);
      assert (ShowFac(f) + rest)[1..] == ShowExp(f) + ([")"] + rest);
    case Or(_, _) =>
      ExpRoundTrip(f, [")"] + rest);
      assert (ShowFac(f) + rest)[1..] == ShowExp(f) + ([")"] + rest);
  }

  /** Printing a formula with single spaces between tokens and parsing the
      text gives the formula back: `and` binds tighter than `or`, both group
      to the right, and `not` applies to one factor. */
  lemma ParsePrinted(f: Formula)
    requires Printable(f)
    ensures ParseString(Join(ShowExp(f))) == Ok(f)
  {
    TokensOfJoin(ShowExp(f));
    ExpRoundTrip(f, []);
    assert ShowExp(f) + [] == ShowExp(f);
  }

  /** A dangling `and` is not an error: the missing factor becomes an atom
      named `null`. */
  lemma DanglingAnd()
    ensures PParse(["x", "and"]) == Ok(And(Atom(Named("x")), Atom(Missing)))
  {
    assert PFac(["x", "and"]) == Parsed(Atom(Named("x")), ["and"]);
    assert PFac([]) == Parsed(Atom(Missing), []);
    assert PTerm([]) == Parsed(Atom(Missing), []);
  }

  /** The same on the text: `x and` parses to `x and null`. */
  lemma DanglingAndText()
    ensures ParseString("x and") == Ok(And(Atom(Named("x")), Atom(Missing)))
  {
    assert IsToken("x") && IsToken("and");
    assert Join(["x", "and"]) == "x and";
    TokensOfJoin(["x", "and"]);
    DanglingAnd();
  }

  /** An unclosed parenthesis reports the missing `)` against the end of
      the input. */
  lemma UnclosedParenthesis()
    ensures PParse(["(", "x"]) == Err(Unexpected(Some(")"), None))
  {
    assert PFac(["x"]) == Parsed(Atom(Named("x")), []);
    assert PExp(["x"]) == Parsed(Atom(Named("x")), []);
  }

  /** A second atom without an operator is trailing input. */
  lemma TwoAtoms()
    ensures PParse(["x", "y"]) == Err(TrailingInput("y"))
  {
    assert PFac(["x", "y"]) == Parsed(Atom(Named("x")), ["y"]);
  }

  // ------------------------------------------------------------- the class

  /** `FormulaParser`: the unread input and the lookahead token. */
  class FormulaParser {
    var input: string
    var lookahead: Option<string>

    /** The tokens still to be parsed, the lookahead first. */
    function Stream(): seq<string>
      reads this
    {
      match lookahead
      case None => []
      case Some(t) => [t] + Tokens(input)
    }

    /** Without a lookahead, only white space is left. */
    predicate Valid()
      reads this
    {
      lookahead.None? ==> Tokens(input) == []
    }

    /** `constructor(input)`: reads the first token. */
    constructor(s: string)
      ensures Valid() && Stream() == Tokens(s)
    {
      input := s;
      lookahead := None;
      new;
      lookahead := Next();
    }

    /** `next()`: one match of the token pattern; on a match the input loses
        the matched text. */
    method Next() returns (t: Option<string>)
      modifies this
      ensures (t, input) == Lex(old(input))
      ensures lookahead == old(lookahead)
      ensures t.None? ==> Tokens(input) == []
      ensures t.Some? ==> Tokens(old(input)) == [t.value] + Tokens(input)
    {
      var (token, rest) := Lex(input);
      if token.Some? {
        input := rest;
      }
      return token;
    }

    /** `match(expected)`: consume the lookahead if it is `expected`, else
        fail and change nothing. */
    method Match(expected: Option<string>) returns (r: Result<(), ParseError>)
      requires Valid()
      modifies this
      ensures Valid()
      ensures r.Ok? <==> old(lookahead) == expected
      ensures r.Ok? ==> Stream() == Drop1(old(Stream()))
      ensures r.Err? ==> r.error == Unexpected(expected, old(lookahead)) && Stream() == old(Stream())
    {
      if lookahead == expected {
        lookahead := Next();
        return Ok(());
      } else {
        return Err(Unexpected(expected, lookahead));
      }
    }

    method ParseExp() returns (r: Result<Formula, ParseError>)
      requires Valid()
      modifies this
      decreases |Stream()|, 2
      ensures Valid()
      ensures PExp(old(Stream())).Failed? ==> r == Err(PExp(old(Stream())).e)
      ensures PExp(old(Stream())).Parsed? ==> r == Ok(PExp(old(Stream())).f) && Stream() == PExp(old(Stream())).rest
    {
      var term := ParseTerm();
      if term.Err? {
        return term;
      }
      if lookahead == Some("or") {
        ghost var rest := Stream();
        var _ := Match(Some("or"));
        assert Stream() == rest[1..];
        var exp := ParseExp();
        if exp.Err? {
          return exp;
        }
        return Ok(Or(term.value, exp.value));
      } else {
        return term;
      }
    }

    method ParseTerm() returns (r: Result<Formula, ParseError>)
      requires Valid()
      modifies this
      decreases |Stream()|, 1
      ensures Valid()
      ensures PTerm(old(Stream())).Failed? ==> r == Err(PTerm(old(Stream())).e)
      ensures PTerm(old(Stream())).Parsed? ==> r == Ok(PTerm(old(Stream())).f) && Stream() == PTerm(old(Stream())).rest
    {
      var fac := ParseFac();
      if fac.Err? {
        return fac;
      }
      if lookahead == Some("and") {
        ghost var rest := Stream();
        var _ := Match(Some("and"));
        assert Stream() == rest[1..];
        var term := ParseTerm();
        if term.Err? {
          return term;
        }
        return Ok(And(fac.value, term.value));
      } else {
        return fac;
      }
    }

    method ParseFac() returns (r: Result<Formula, ParseError>)
      requires Valid()
      modifies this
      decreases |Stream()|, 0
      ensures Valid()
      ensures PFac(old(Stream())).Failed? ==> r == Err(PFac(old(Stream())).e)
      ensures PFac(old(Stream())).Parsed? ==> r == Ok(PFac(old(Stream())).f) && Stream() == PFac(old(Stream())).rest
    {
      if lookahead == Some("not") {
        var _ := Match(Some("not"));
        var fac := ParseFac();
        if fac.Err? {
          return fac;
        }
        return Ok(Not(fac.value));
      } else if lookahead == Some("(") {
        var _ := Match(Some("("));
        var exp := ParseExp();
        if exp.Err? {
          return exp;
        }
        var closed := Match(Some(")"));
        if closed.Err? {
          return Err(closed.error);
        }
        return exp;
      } else {
        var literal := lookahead;
        var _ := Match(literal);
        return Ok(AtomOf(literal));
      }
    }

    /** `parse()`: an expression, then nothing but white space. */
    method Parse() returns (r: Result<Formula, ParseError>)
      requires Valid()
      modifies this
      ensures r == PParse(old(Stream()))
    {
      var result := ParseExp();
      if result.Err? {
        return result;
      }
      if lookahead.Some? {
        return Err(TrailingInput(lookahead.value));
      }
      return result;
    }
  }
}
