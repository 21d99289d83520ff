/**
 * The value-search query language of the bank search box (VALUE_SEARCH_PATTERN
 * in BankPlugin.java) and a hand-written recogniser for it.
 *
 * The pattern has two alternatives and must match the whole string:
 *   compare form:  mode? ' '* scope? ' '* op ' '* number ' '* order
 *   range form:    number ' '* '-' ' '* number ' '* order
 * with mode = qty|ge|ha|alch, scope = i|iv|individual|per,
 * op = < | > | = | >= | <=, number = [0-9]+(.[0-9]+)?[kmb]?,
 * order = (a|d|asc|des|desc)? (possibly empty). Letters match regardless of
 * ASCII case; the separators are plain spaces.
 *
 * `Query` is the parse tree: it keeps the text of every token, as the regex
 * groups capture it, and the number of spaces in every gap. `WellFormed` and
 * `Render` state the grammar declaratively; `Recognize` scans a string
 * greedily. The two are tied together by the postcondition of `Recognize`
 * (what it accepts is a well-formed query rendering to the input) and by
 * `RecognizeComplete` (every well-formed query is accepted from its
 * rendering and given back), so Recognize accepts exactly the rendered
 * well-formed queries.
 */
module ValueQuery {
  import opened Wrappers

  // ---------------------------------------------------------------- characters

  predicate IsDigit(c: char) { '0' <= c <= '9' }

  predicate IsOpChar(c: char) { c == '<' || c == '>' || c == '=' }

  /** ASCII lower-casing, the case folding of Pattern.CASE_INSENSITIVE. */
  function Lower(c: char): (l: char)
    ensures IsDigit(c) ==> l == c
    ensures l == ' ' <==> c == ' '
  {
    if 'A' <= c <= 'Z' then (c as int - 'A' as int + 'a' as int) as char else c
  }

  function LowerStr(s: string): (r: string)
    ensures |r| == |s|
    ensures forall i :: 0 <= i < |s| ==> r[i] == Lower(s[i])
  {
    seq(|s|, i requires 0 <= i < |s| => Lower(s[i]))
  }

  predicate AllDigits(s: string) {
    forall i :: 0 <= i < |s| ==> IsDigit(s[i])
  }

  function Spaces(n: nat): (r: string)
    ensures |r| == n
    ensures forall i :: 0 <= i < n ==> r[i] == ' '
  {
    seq(n, i => ' ')
  }

  // ---------------------------------------------------------------- tokens

  predicate IsModeToken(t: string) {
    var l := LowerStr(t);
    l == "qty" || l == "ge" || l == "ha" || l == "alch"
  }

  predicate IsScopeToken(t: string) {
    var l := LowerStr(t);
    l == "i" || l == "iv" || l == "individual" || l == "per"
  }

  predicate IsOpToken(t: string) {
    t == "<" || t == ">" || t == "=" || t == ">=" || t == "<="
  }

  /** The order group; it may be empty. */
  predicate IsOrderToken(t: string) {
    var l := LowerStr(t);
    l == "" || l == "a" || l == "d" || l == "asc" || l == "des" || l == "desc"
  }

  predicate IsSuffixChar(c: char) {
    Lower(c) == 'k' || Lower(c) == 'm' || Lower(c) == 'b'
  }

  /**
   * A number literal [0-9]+(\.[0-9]+)?[kmb]?: the integral digits, the
   * fractional digits (empty when there is no '.' part) and the magnitude
   * suffix (empty or one letter).
   */
  datatype Number = Number(whole: string, fraction: string, suffix: string)

  predicate WellFormedNumber(n: Number) {
    && |n.whole| > 0 && AllDigits(n.whole)
    && AllDigits(n.fraction)
    && (n.suffix == [] || (|n.suffix| == 1 && IsSuffixChar(n.suffix[0])))
  }

  function FractionText(fraction: string): string {
    if fraction == [] then [] else "." + fraction
  }

  function NumberText(n: Number): string {
    n.whole + (FractionText(n.fraction) + n.suffix)
  }

  // ---------------------------------------------------------------- queries

  /**
   * A parsed query. `mode` and `scope` are empty when the optional group did
   * not take part in the match; `order` is the text of the order group, which
   * always takes part and may be empty. The gaps count the spaces between
   * tokens.
   */
  datatype Query =
    | Compare(mode: string, gap1: nat, scope: string, gap2: nat, op: string,
              gap3: nat, threshold: Number, gap4: nat, order: string)
    | Range(low: Number, gap1: nat, gap2: nat, high: Number, gap3: nat, order: string)

  /**
   * The grammar. When the scope is absent the spaces before the operator
   * are all counted in gap1, so that every string has one parse tree.
   */
  predicate WellFormed(q: Query) {
    match q
    case Compare(mode, _, scope, gap2, op, _, num, _, order) =>
      && (mode == [] || IsModeToken(mode))
      && (scope == [] || IsScopeToken(scope))
      && (scope == [] ==> gap2 == 0)
      && IsOpToken(op)
      && WellFormedNumber(num)
      && IsOrderToken(order)
    case Range(low, _, _, high, _, order) =>
      WellFormedNumber(low) && WellFormedNumber(high) && IsOrderToken(order)
  }

  /** The text of a query: its tokens with the spaces between them. */
  function Render(q: Query): string {
    match q
    case Compare(mode, g1, scope, g2, op, g3, num, g4, order) =>
      mode + (Spaces(g1) + (scope + (Spaces(g2) + (op + (Spaces(g3) +
        (NumberText(num) + (Spaces(g4) + order)))))))
    case Range(low, g1, g2, high, g3, order) =>
      NumberText(low) + (Spaces(g1) + ("-" + (Spaces(g2) +
        (NumberText(high) + (Spaces(g3) + order)))))
  }

  // ---------------------------------------------------------------- scanners

  /** Number of leading spaces of s. */
  function SpaceRun(s: string): (n: nat)
    ensures n <= |s|
    ensures s[..n] == Spaces(n) && s == Spaces(n) + s[n..]
    ensures n < |s| ==> s[n] != ' '
  {
    if s != [] && s[0] == ' ' then 1 + SpaceRun(s[1..]) else 0
  }

  /** Number of leading decimal digits of s. */
  function DigitRun(s: string): (n: nat)
    ensures n <= |s|
    ensures AllDigits(s[..n])
    ensures n < |s| ==> !IsDigit(s[n])
  {
    if s != [] && IsDigit(s[0]) then 1 + DigitRun(s[1..]) else 0
  }

  predicate HasPrefixCI(s: string, token: string) {
    |s| >= |token| && LowerStr(s[..|token|]) == token
  }

  /** The mode token that starts s, or "" when none does. */
  function ModeAt(s: string): (m: string)
    ensures |m| <= |s| && m == s[..|m|] && s == m + s[|m|..]
    ensures m == [] || IsModeToken(m)
  {
    if HasPrefixCI(s, "qty") then s[..3]
    else if HasPrefixCI(s, "ge") then s[..2]
    else if HasPrefixCI(s, "ha") then s[..2]
    else if HasPrefixCI(s, "alch") then s[..4]
    else []
  }

  /** The longest scope token that starts s, or "". */
  function ScopeAt(s: string): (t: string)
    ensures |t| <= |s| && t == s[..|t|] && s == t + s[|t|..]
    ensures t == [] || IsScopeToken(t)
  {
    if HasPrefixCI(s, "individual") then s[..10]
    else if HasPrefixCI(s, "iv") then s[..2]
    else if HasPrefixCI(s, "i") then s[..1]
    else if HasPrefixCI(s, "per") then s[..3]
    else []
  }

  /** The longest comparison operator that starts s, or "". */
  function OpAt(s: string): (op: string)
    ensures |op| <= |s| && op == s[..|op|] && s == op + s[|op|..]
    ensures op == [] || IsOpToken(op)
  {
    if |s| >= 2 && (s[..2] == ">=" || s[..2] == "<=") then s[..2]
    else if |s| >= 1 && IsOpChar(s[0]) then s[..1]
    else []
  }

  /** The digits of a fractional part ".digits" that starts r, or "" when r has none. */
  function FractionAt(r: string): (f: string)
    ensures AllDigits(f)
    ensures f != [] ==> |r| > |f| && r[0] == '.' && r[1..1 + |f|] == f
  {
    if |r| > 0 && r[0] == '.' then
      var n := DigitRun(r[1..]);
      assert r[1..1 + n] == r[1..][..n];
      r[1..1 + n]
    else []
  }

  /** The magnitude suffix letter that starts r, or "". */
  function SuffixAt(r: string): (x: string)
    ensures x == [] || (|x| == 1 && |r| >= 1 && IsSuffixChar(x[0]) && r[..1] == x)
  {
    if |r| > 0 && IsSuffixChar(r[0]) then r[..1] else []
  }

  /** The longest number literal that starts s. */
  function NumberAt(s: string): (r: Option<Number>)
    ensures r.Some? ==> WellFormedNumber(r.value)
  {
    var w := DigitRun(s);
    if w == 0 then None
    else
      var rest := s[w..];
      var fraction := FractionAt(rest);
      var afterFraction := if fraction == [] then rest else rest[1 + |fraction|..];
      var suffix := SuffixAt(afterFraction);
      Some(Number(s[..w], fraction, suffix))
  }

  /** The number NumberAt finds is a prefix of the scanned string. */
  lemma NumberAtPrefix(s: string)
    requires NumberAt(s).Some?
    ensures |NumberText(NumberAt(s).value)| <= |s|
    ensures s == NumberText(NumberAt(s).value) + s[|NumberText(NumberAt(s).value)|..]
  {
  }

  /**
   * The common end of both forms, number ' '* order, where the order token
   * must reach the end of s.
   */
  function TailAt(s: string): (r: Option<(Number, nat, string)>)
    ensures r.Some? ==> WellFormedNumber(r.value.0) && IsOrderToken(r.value.2)
    ensures r.Some? ==> s == NumberText(r.value.0) + (Spaces(r.value.1) + r.value.2)
  {
    match NumberAt(s)
    case None => None
    case Some(num) =>
      NumberAtPrefix(s);
      var rest := s[|NumberText(num)|..];
      var gap := SpaceRun(rest);
      var order := rest[gap..];
      if IsOrderToken(order) then Some((num, gap, order)) else None
  }

  // ---------------------------------------------------------------- recogniser

  /** The compare form, from the operator on. */
  function OperatorAt(s: string): (r: Option<(string, nat, Number, nat, string)>)
    ensures r.Some? ==> IsOpToken(r.value.0) && WellFormedNumber(r.value.2) && IsOrderToken(r.value.4)
    ensures r.Some? ==> s == r.value.0 + (Spaces(r.value.1) + (NumberText(r.value.2) + (Spaces(r.value.3) + r.value.4)))
  {
    var op := OpAt(s);
    if op == [] then None
    else
      var s1 := s[|op|..];
      var gap := SpaceRun(s1);
      var s2 := s1[gap..];
      match TailAt(s2)
      case None => None
      case Some((num, gap2, order)) => Some((op, gap, num, gap2, order))
  }

  /** The compare form, from the scope on. */
  function ScopedAt(s: string): (r: Option<(string, nat, string, nat, Number, nat, string)>)
    ensures r.Some? ==> r.value.0 == [] || IsScopeToken(r.value.0)
    ensures r.Some? ==> s == r.value.0 + (Spaces(r.value.1) + (r.value.2 + (Spaces(r.value.3) + (NumberText(r.value.4) + (Spaces(r.value.5) + r.value.6)))))
    ensures r.Some? ==> IsOpToken(r.value.2) && WellFormedNumber(r.value.4) && IsOrderToken(r.value.6)
  {
    var scope := ScopeAt(s);
    var s1 := s[|scope|..];
    var gap := SpaceRun(s1);
    var s2 := s1[gap..];
    match OperatorAt(s2)
    case None => None
    case Some((op, gap3, num, gap4, order)) =>
      Some((scope, gap, op, gap3, num, gap4, order))
  }

  function RecognizeCompare(s: string): (r: Option<Query>)
    ensures r.Some? ==> r.value.Compare? && WellFormed(r.value) && Render(r.value) == s
  {
    var mode := ModeAt(s);
    var s1 := s[|mode|..];
    var gap := SpaceRun(s1);
    var s2 := s1[gap..];
    match ScopedAt(s2)
    case None => None
    case Some((scope, gap2, op, gap3, num, gap4, order)) =>
      var q := Compare(mode, gap, scope, gap2, op, gap3, num, gap4, order);
      Some(q)
  }

  /** The range form after its dash: ' '* number ' '* order. */
  function HighAt(s: string): (r: Option<(nat, Number, nat, string)>)
    ensures r.Some? ==> WellFormedNumber(r.value.1) && IsOrderToken(r.value.3)
    ensures r.Some? ==> s == Spaces(r.value.0) + (NumberText(r.value.1) + (Spaces(r.value.2) + r.value.3))
  {
    var gap := SpaceRun(s);
    match TailAt(s[gap..])
    case None => None
    case Some((high, gap2, order)) => Some((gap, high, gap2, order))
  }

  /** The range form after its low bound: ' '* '-' ' '* number ' '* order. */
  function UpperAt(s: string): (r: Option<(nat, nat, Number, nat, string)>)
    ensures r.Some? ==> WellFormedNumber(r.value.2) && IsOrderToken(r.value.4)
    ensures r.Some? ==>
              s == Spaces(r.value.0) + ("-" + (Spaces(r.value.1) +
                     (NumberText(r.value.2) + (Spaces(r.value.3) + r.value.4))))
  {
    var gap := SpaceRun(s);
    var s1 := s[gap..];
    if s1 == [] || s1[0] != '-' then None
    else
      DashSplit(s1);
      match HighAt(s1[1..])
      case None => None
      case Some((gap2, high, gap3, order)) => Some((gap, gap2, high, gap3, order))
  }

  lemma DashSplit(s: string)
    requires s != [] && s[0] == '-'
    ensures s == "-" + s[1..]
  {
  }

  function RecognizeRange(s: string): (r: Option<Query>)
    ensures r.Some? ==> r.value.Range? && WellFormed(r.value) && Render(r.value) == s
  {
    match NumberAt(s)
    case None => None
    case Some(low) =>
      NumberAtPrefix(s);
      match UpperAt(s[|NumberText(low)|..])
      case None => None
      case Some((gap, gap2, high, gap3, order)) => Some(Range(low, gap, gap2, high, gap3, order))
  }

  /**
   * matcher.matches() on VALUE_SEARCH_PATTERN, with the captured groups.
   * What it accepts is a well-formed query whose text is exactly s.
   */
  function Recognize(s: string): (r: Option<Query>)
    ensures r.Some? ==> WellFormed(r.value) && Render(r.value) == s
  {
    match RecognizeCompare(s)
    case Some(q) => Some(q)
    case None => RecognizeRange(s)
  }

  // ---------------------------------------------------------------- completeness

  /** The characters that may follow a number literal in a query. */
  predicate EndsNumber(rest: string) {
    rest == [] || rest[0] == ' ' || rest[0] == '-' || Lower(rest[0]) == 'a' || Lower(rest[0]) == 'd'
  }

  predicate StartsMode(c: char) {
    Lower(c) == 'q' || Lower(c) == 'g' || Lower(c) == 'h' || Lower(c) == 'a'
  }

  lemma {:induction false} SpaceRunOf(n: nat, rest: string)
    requires rest == [] || rest[0] != ' '
    ensures SpaceRun(Spaces(n) + rest) == n
  {
    if n == 0 {
      assert Spaces(n) + rest == rest;
    } else {
      assert (Spaces(n) + rest)[1..] == Spaces(n - 1) + rest;
      SpaceRunOf(n - 1, rest);
    }
  }

  lemma {:induction false} DigitRunOf(d: string, rest: string)
    requires AllDigits(d)
    requires rest == [] || !IsDigit(rest[0])
    ensures DigitRun(d + rest) == |d|
  {
    if d == [] {
      assert d + rest == rest;
    } else {
      assert (d + rest)[1..] == d[1..] + rest;
      DigitRunOf(d[1..], rest);
    }
  }

  /** The first letter of a case-insensitive token is the token's first letter in some case. */
  lemma FirstLetter(s: string, k: nat)
    requires 0 < k <= |s|
    ensures LowerStr(s[..k])[0] == Lower(s[0])
  {
  }

  lemma ModeAtOf(mode: string, rest: string)
    requires mode == [] || IsModeToken(mode)
    requires mode == [] ==> rest == [] || !StartsMode(rest[0])
    ensures ModeAt(mode + rest) == mode
  {
    var s := mode + rest;
    assert s[..|mode|] == mode;
    if s != [] {
      FirstLetter(s, 1);
      if |s| >= 2 { FirstLetter(s, 2); }
      if |s| >= 3 { FirstLetter(s, 3); }
      if |s| >= 4 { FirstLetter(s, 4); }
    }
    if mode != [] {
      FirstLetter(mode, |mode|);
      assert mode[..|mode|] == mode;
      assert s[0] == mode[0];
    } else {
      assert s == rest;
    }
  }

  lemma ScopeAtOf(scope: string, rest: string)
    requires scope == [] || IsScopeToken(scope)
    requires rest == [] || rest[0] == ' ' || IsOpChar(rest[0]) || IsDigit(rest[0])
    ensures ScopeAt(scope + rest) == scope
  {
    var s := scope + rest;
    assert s[..|scope|] == scope;
    if scope == [] {
      assert s == rest;
      if s != [] {
        FirstLetter(s, 1);
        if |s| >= 2 { FirstLetter(s, 2); }
        if |s| >= 3 { FirstLetter(s, 3); }
        if |s| >= 10 { FirstLetter(s, 10); }
      }
    } else {
      assert LowerStr(scope)[0] == Lower(s[0]);
      if |scope| == 1 && |s| > 1 {
        assert s[1] == rest[0];
        assert |s| >= 2 ==> LowerStr(s[..2])[1] == Lower(s[1]);
        assert |s| >= 10 ==> LowerStr(s[..10])[1] == Lower(s[1]);
      } else if |scope| > 1 {
        assert LowerStr(scope)[1] == Lower(s[1]);
        assert |s| >= 10 ==> LowerStr(s[..10])[1] == Lower(s[1]);
        assert |s| >= 3 ==> LowerStr(s[..3])[0] == Lower(s[0]);
      }
    }
  }

  lemma OpAtOf(op: string, rest: string)
    requires IsOpToken(op)
    requires rest == [] || rest[0] == ' ' || IsDigit(rest[0])
    ensures OpAt(op + rest) == op
  {
    var s := op + rest;
    assert s[..|op|] == op;
    if |op| == 1 && |s| >= 2 {
      assert s[..2] == [op[0], rest[0]];
    }
  }

  lemma Associate(a: string, b: string, c: string)
    ensures (a + b) + c == a + (b + c)
  {
  }

  lemma FractionAtOf(fraction: string, rest: string)
    requires AllDigits(fraction) && fraction != []
    requires rest == [] || !IsDigit(rest[0])
    ensures FractionAt("." + (fraction + rest)) == fraction
  {
    var r := "." + (fraction + rest);
    assert r[1..] == fraction + rest;
    DigitRunOf(fraction, rest);
    assert r[1..][..|fraction|] == fraction;
  }

  lemma SuffixAtOf(suffix: string, rest: string)
    requires suffix == [] || (|suffix| == 1 && IsSuffixChar(suffix[0]))
    requires EndsNumber(rest)
    ensures SuffixAt(suffix + rest) == suffix
  {
  }

  /** What follows the integral digits of a number literal is scanned back into its parts. */
  lemma AfterWholeOf(n: Number, rest: string)
    requires WellFormedNumber(n)
    requires EndsNumber(rest)
    ensures var r := FractionText(n.fraction) + (n.suffix + rest);
      && (r == [] || !IsDigit(r[0]))
      && FractionAt(r) == n.fraction
      && (if n.fraction == [] then r else r[1 + |n.fraction|..]) == n.suffix + rest
      && SuffixAt(n.suffix + rest) == n.suffix
  {
    SuffixAtOf(n.suffix, rest);
    var r := FractionText(n.fraction) + (n.suffix + rest);
    assert n.suffix + rest == [] || !IsDigit((n.suffix + rest)[0]) by {
      if n.suffix != [] { assert (n.suffix + rest)[0] == n.suffix[0]; } else { assert n.suffix + rest == rest; }
    }
    if n.fraction == [] {
      assert r == n.suffix + rest;
    } else {
      assert r == "." + (n.fraction + (n.suffix + rest));
      FractionAtOf(n.fraction, n.suffix + rest);
      assert r[1 + |n.fraction|..] == n.suffix + rest;
    }
  }

  lemma NumberAtOf(n: Number, rest: string)
    requires WellFormedNumber(n)
    requires EndsNumber(rest)
    ensures NumberAt(NumberText(n) + rest) == Some(n)
  {
    var r := FractionText(n.fraction) + (n.suffix + rest);
    var s := NumberText(n) + rest;
    Associate(n.whole, FractionText(n.fraction) + n.suffix, rest);
    Associate(FractionText(n.fraction), n.suffix, rest);
    AfterWholeOf(n, rest);
    DigitRunOf(n.whole, r);
    assert s[..|n.whole|] == n.whole;
    assert s[|n.whole|..] == r;
  }

  lemma TailAtOf(num: Number, gap: nat, order: string)
    requires WellFormedNumber(num) && IsOrderToken(order)
    ensures TailAt(NumberText(num) + (Spaces(gap) + order)) == Some((num, gap, order))
  {
    var rest := Spaces(gap) + order;
    OrderStart(order);
    NumberAtOf(num, rest);
    assert (NumberText(num) + rest)[|NumberText(num)|..] == rest;
    SpaceRunOf(gap, order);
    assert rest[gap..] == order;
  }

  lemma OperatorAtOf(op: string, gap: nat, num: Number, gap2: nat, order: string)
    requires IsOpToken(op) && WellFormedNumber(num) && IsOrderToken(order)
    ensures OperatorAt(op + (Spaces(gap) + (NumberText(num) + (Spaces(gap2) + order))))
            == Some((op, gap, num, gap2, order))
  {
    var t := NumberText(num) + (Spaces(gap2) + order);
    var s1 := Spaces(gap) + t;
    NumberStart(num);
    OpAtOf(op, s1);
    assert (op + s1)[|op|..] == s1;
    SpaceRunOf(gap, t);
    assert s1[gap..] == t;
    TailAtOf(num, gap2, order);
  }

  lemma ScopedAtOf(scope: string, gap: nat, op: string, gap3: nat, num: Number, gap4: nat, order: string)
    requires scope == [] || IsScopeToken(scope)
    requires IsOpToken(op) && WellFormedNumber(num) && IsOrderToken(order)
    ensures ScopedAt(scope + (Spaces(gap) + (op + (Spaces(gap3) + (NumberText(num) + (Spaces(gap4) + order))))))
            == Some((scope, gap, op, gap3, num, gap4, order))
  {
    var t := op + (Spaces(gap3) + (NumberText(num) + (Spaces(gap4) + order)));
    var s1 := Spaces(gap) + t;
    ScopeAtOf(scope, s1);
    assert (scope + s1)[|scope|..] == s1;
    SpaceRunOf(gap, t);
    assert s1[gap..] == t;
    OperatorAtOf(op, gap3, num, gap4, order);
  }

  /** Every well-formed query is recognised, and its parse tree is given back. */
  lemma {:induction false} RecognizeComplete(q: Query)
    requires WellFormed(q)
    ensures Recognize(Render(q)) == Some(q)
  {
    match q
    case Compare(mode, g1, scope, g2, op, g3, num, g4, order) =>
      CompareAtOf(q);
    case Range(low, g1, g2, high, g3, order) =>
      RangeComplete(q);
  }

  lemma CompareAtOf(q: Query)
    requires q.Compare? && WellFormed(q)
    ensures RecognizeCompare(Render(q)) == Some(q)
  {
    var Compare(mode, g1, scope, g2, op, g3, num, g4, order) := q;
    var t := scope + (Spaces(g2) + (op + (Spaces(g3) + (NumberText(num) + (Spaces(g4) + order)))));
    var s1 := Spaces(g1) + t;
    if scope != [] {
      ScopeStart(scope);
    }
    ModeAtOf(mode, s1);
    DropPrefix(mode, s1);
    SpaceRunOf(g1, t);
    DropPrefix(Spaces(g1), t);
    ScopedAtOf(scope, g2, op, g3, num, g4, order);
  }

  lemma RangeComplete(q: Query)
    requires q.Range? && WellFormed(q)
    ensures RecognizeCompare(Render(q)) == None
    ensures RecognizeRange(Render(q)) == Some(q)
  {
    var Range(low, g1, g2, high, g3, order) := q;
    NumberStart(low);
    NoCompareAtDigit(Render(q));
    RangeAtOf(low, g1, g2, high, g3, order);
  }

  lemma HighAtOf(g2: nat, high: Number, g3: nat, order: string)
    requires WellFormedNumber(high) && IsOrderToken(order)
    ensures HighAt(Spaces(g2) + (NumberText(high) + (Spaces(g3) + order))) == Some((g2, high, g3, order))
  {
    var t4 := NumberText(high) + (Spaces(g3) + order);
    NumberStart(high);
    SpaceRunOf(g2, t4);
    DropPrefix(Spaces(g2), t4);
    TailAtOf(high, g3, order);
  }

  lemma UpperAtOf(g1: nat, g2: nat, high: Number, g3: nat, order: string)
    requires WellFormedNumber(high) && IsOrderToken(order)
    ensures UpperAt(Spaces(g1) + ("-" + (Spaces(g2) + (NumberText(high) + (Spaces(g3) + order)))))
            == Some((g1, g2, high, g3, order))
  {
    var t3 := Spaces(g2) + (NumberText(high) + (Spaces(g3) + order));
    var t2 := "-" + t3;
    SpaceRunOf(g1, t2);
    DropPrefix(Spaces(g1), t2);
    DropPrefix("-", t3);
    HighAtOf(g2, high, g3, order);
  }

  lemma RangeAtOf(low: Number, g1: nat, g2: nat, high: Number, g3: nat, order: string)
    requires WellFormedNumber(low) && WellFormedNumber(high) && IsOrderToken(order)
    ensures RecognizeRange(Render(Range(low, g1, g2, high, g3, order)))
            == Some(Range(low, g1, g2, high, g3, order))
  {
    var t1 := Spaces(g1) + ("-" + (Spaces(g2) + (NumberText(high) + (Spaces(g3) + order))));
    NumberAtOf(low, t1);
    DropPrefix(NumberText(low), t1);
    UpperAtOf(g1, g2, high, g3, order);
  }

  lemma DropPrefix(a: string, b: string)
    ensures (a + b)[|a|..] == b
  {
  }

  /** A string that starts with a digit is not in the compare form. */
  lemma NoCompareAtDigit(s: string)
    requires s != [] && IsDigit(s[0])
    ensures RecognizeCompare(s) == None
  {
    ModeAtOf([], s);
    assert [] + s == s;
    assert SpaceRun(s) == 0;
    ScopeAtOf([], s);
    assert OpAt(s) == [];
  }

  lemma OrderStart(order: string)
    requires IsOrderToken(order)
    ensures order == [] || Lower(order[0]) == 'a' || Lower(order[0]) == 'd'
  {
  }

  lemma NumberStart(n: Number)
    requires WellFormedNumber(n)
    ensures IsDigit(NumberText(n)[0])
  {
  }

  lemma ScopeStart(scope: string)
    requires IsScopeToken(scope)
    ensures Lower(scope[0]) == 'i' || Lower(scope[0]) == 'p'
  {
  }
}
