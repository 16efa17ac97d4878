/**
 * Route selection of the edge router: path patterns compiled to regular
 * expressions, host wildcards, query requirements, first-match choice
 * over the route table, and the target URL.
 *
 * A compiled pattern is represented by the token sequence of the regular
 * expression it produces, together with whether the expression ended up
 * anchored at the end; `Source` is the text of the expression body, used
 * where the code inspects that text.
 */
module RouteMatcher {
  import opened Common
  import opened RouterConfig

  // -----------------------------------------------------------------------
  // pathPatternToRegex

  /** JavaScript line terminators: what `.` in a regular expression does not match. */
  predicate IsLineTerminator(c: char) { c == '\n' || c == '\r' || c == '\U{2028}' || c == '\U{2029}' }

  /** The characters the compiler escapes: `[.+?^${}()|[\]\\]`. */
  predicate IsRegexSpecial(c: char) {
    c == '.' || c == '+' || c == '?' || c == '^' || c == '$' || c == '{' || c == '}' ||
    c == '(' || c == ')' || c == '|' || c == '[' || c == ']' || c == '\\'
  }

  /** One element of a compiled expression: a literal, `.`, `[^/]*` or `.*`. */
  datatype Tok = Lit(c: char) | Dot | NoSlashRun | AnyRun

  /** A compiled pattern, always anchored at the start. */
  datatype Regex = Regex(toks: seq<Tok>, anchoredEnd: bool)

  /** `/^.*$/`. */
  const MatchAll: Regex := Regex([AnyRun], true)

  /** The patterns compiled to `^.*$` without looking at them: absent, empty, a slash and a star, or a star alone. */
  predicate IsMatchAllPattern(pattern: Option<string>) {
    pattern.None? || pattern.value == "" || pattern.value == "/*" || pattern.value == "*"
  }

  /**
   * The body of the expression after the three replaces: special
   * characters escaped, each `**` (left to right) turned into `.*`, and
   * then every `*` (including the one just produced) into `[^/]*`.
   * Escaping never produces a `*`, so the stars replaced are exactly
   * those of the pattern.  The body never starts with `^`, so the
   * compiler always prepends one.
   */
  function Source(p: string): (r: string)
    ensures r == [] || r[0] != '^'
    ensures |r| >= |p|
    decreases |p|
  {
    if p == [] then []
    else if StartsWith(p, "**") then ".[^/]*" + Source(p[2..])
    else if p[0] == '*' then "[^/]*" + Source(p[1..])
    else (if IsRegexSpecial(p[0]) then ['\\', p[0]] else [p[0]]) + Source(p[1..])
  }

  /** The tokens of the body `Source(p)` denotes. */
  function Tokens(p: string): seq<Tok>
    decreases |p|
  {
    if p == [] then []
    else if StartsWith(p, "**") then [Dot, NoSlashRun] + Tokens(p[2..])
    else if p[0] == '*' then [NoSlashRun] + Tokens(p[1..])
    else [Lit(p[0])] + Tokens(p[1..])
  }

  /** `pathPatternToRegex`: the end anchor is added unless the body already ends with `$`. */
  function PathPatternToRegex(pattern: Option<string>): Regex {
    if IsMatchAllPattern(pattern) then MatchAll
    else Regex(Tokens(pattern.value), !EndsWith(Source(pattern.value), "$"))
  }

  predicate NoSlash(s: string) { forall i :: 0 <= i < |s| ==> s[i] != '/' }

  predicate NoLineBreak(s: string) { forall i :: 0 <= i < |s| ==> !IsLineTerminator(s[i]) }

  /** The tokens match the whole of `s`. */
  predicate MatchesAll(toks: seq<Tok>, s: string)
    decreases |toks|
  {
    if toks == [] then s == []
    else match toks[0]
      case Lit(c) => s != [] && s[0] == c && MatchesAll(toks[1..], s[1..])
      case Dot => s != [] && !IsLineTerminator(s[0]) && MatchesAll(toks[1..], s[1..])
      case NoSlashRun => exists k :: 0 <= k <= |s| && NoSlash(s[..k]) && MatchesAll(toks[1..], s[k..])
      case AnyRun => exists k :: 0 <= k <= |s| && NoLineBreak(s[..k]) && MatchesAll(toks[1..], s[k..])
  }

  /** `regex.test(s)`: a match starting at position 0, reaching the end when anchored there. */
  predicate Test(re: Regex, s: string) {
    if re.anchoredEnd then MatchesAll(re.toks, s)
    else exists k :: 0 <= k <= |s| && MatchesAll(re.toks, s[..k])
  }

  predicate StarFree(s: string) { forall i :: 0 <= i < |s| ==> s[i] != '*' }

  /** The tokens of a pattern without stars: one literal per character. */
  function Lits(s: string): (r: seq<Tok>)
    ensures |r| == |s|
  {
    if s == [] then [] else [Lit(s[0])] + Lits(s[1..])
  }

  /** Every piece of the body ends with the last pattern character it came from. */
  lemma {:induction false} SourceLast(p: string)
    requires p != []
    ensures Source(p) != [] && Source(p)[|Source(p)| - 1] == p[|p| - 1]
    decreases |p|
  {
    var two := StartsWith(p, "**");
    var n := if two then 2 else 1;
    var chunk := if two then ".[^/]*" else if p[0] == '*' then "[^/]*" else if IsRegexSpecial(p[0]) then ['\\', p[0]] else [p[0]];
    var rest := p[n..];
    assert Source(p) == chunk + Source(rest);
    if two {
      assert p[..2] == "**";
      assert p[1] == '*';
    }
    assert chunk[|chunk| - 1] == p[n - 1];
    if rest != [] {
      SourceLast(rest);
      assert p[|p| - 1] == rest[|rest| - 1];
    } else {
      assert |p| == n;
    }
  }

  /** The body ends with `$` exactly when the pattern does: then no end anchor is added. */
  lemma SourceEndsWithDollar(p: string)
    ensures EndsWith(Source(p), "$") <==> EndsWith(p, "$")
  {
    assert "$" == ['$'];
    EndsWithChar(Source(p), '$');
    EndsWithChar(p, '$');
    if p != [] {
      SourceLast(p);
    }
  }

  /** A star-free prefix compiles to its literals, whatever follows it. */
  lemma {:induction false} TokensOfStarFree(a: string, rest: string)
    requires StarFree(a)
    ensures Tokens(a + rest) == Lits(a) + Tokens(rest)
    decreases |a|
  {
    if a == [] {
      assert a + rest == rest;
    } else {
      var s := a + rest;
      assert s[0] == a[0] && s[1..] == a[1..] + rest;
      assert !StartsWith(s, "**");
      TokensOfStarFree(a[1..], rest);
    }
  }

  /** Literals match exactly their own text at the front. */
  lemma {:induction false} MatchLits(a: string, rest: seq<Tok>, s: string)
    ensures MatchesAll(Lits(a) + rest, s) <==> StartsWith(s, a) && MatchesAll(rest, s[|a|..])
    decreases |a|
  {
    if a == [] {
      assert Lits(a) + rest == rest;
    } else {
      var t := Lits(a) + rest;
      assert t[0] == Lit(a[0]) && t[1..] == Lits(a[1..]) + rest;
      MatchesAllLit(t, a[0], s);
      if s != [] && s[0] == a[0] {
        MatchLits(a[1..], rest, s[1..]);
        StartsWithCons(s, a);
      }
    }
  }

  /** A leading literal matches the first character. */
  lemma MatchesAllLit(t: seq<Tok>, c: char, s: string)
    requires t != [] && t[0] == Lit(c)
    ensures MatchesAll(t, s) <==> s != [] && s[0] == c && MatchesAll(t[1..], s[1..])
  {
  }

  /** With equal first characters, a prefix test moves one character on. */
  lemma StartsWithCons(s: string, a: string)
    requires s != [] && a != [] && s[0] == a[0]
    ensures StartsWith(s, a) <==> StartsWith(s[1..], a[1..])
    ensures |a| <= |s| ==> s[1..][|a| - 1..] == s[|a|..]
  {
    if |a| <= |s| {
      assert s[..|a|] == [s[0]] + s[1..][..|a| - 1];
      assert a == [a[0]] + a[1..];
    }
  }

  lemma MatchLitsExact(a: string, s: string)
    ensures MatchesAll(Lits(a), s) <==> s == a
  {
    assert Lits(a) + [] == Lits(a);
    MatchLits(a, [], s);
  }

  /** The patterns compiled without inspection match every path without a line break, and only those. */
  lemma MatchAllPatterns(pattern: Option<string>, s: string)
    requires IsMatchAllPattern(pattern)
    ensures Test(PathPatternToRegex(pattern), s) <==> NoLineBreak(s)
  {
    var toks := [AnyRun];
    assert toks[1..] == [];
    if NoLineBreak(s) {
      assert s[..|s|] == s && s[|s|..] == [];
    }
  }

  lemma EndsWithChar(x: string, c: char)
    ensures EndsWith(x, [c]) <==> |x| >= 1 && x[|x| - 1] == c
  {
    if |x| >= 1 { assert x[|x| - 1..] == [x[|x| - 1]]; }
  }

  /** A non-empty pattern without stars compiles to its literals, anchored unless it ends in `$`. */
  lemma CompileStarFree(p: string)
    requires StarFree(p) && p != ""
    ensures PathPatternToRegex(Some(p)) == Regex(Lits(p), !EndsWith(p, "$"))
  {
    SourceEndsWithDollar(p);
    TokensOfStarFree(p, []);
    assert p + [] == p;
    assert Lits(p) + [] == Lits(p);
  }

  /** A pattern ending in `a + mid + b`, with `mid` a non-empty run of stars, ends in `$` iff `b` does. */
  lemma DollarAfterStars(a: string, mid: string, b: string)
    requires mid != [] && mid[|mid| - 1] == '*'
    ensures EndsWith(Source(a + mid + b), "$") <==> EndsWith(b, "$")
  {
    var p := a + mid + b;
    SourceEndsWithDollar(p);
    EndsWithChar(p, '$');
    EndsWithChar(b, '$');
    if b != [] { assert p[|p| - 1] == b[|b| - 1]; } else { assert p[|p| - 1] == mid[|mid| - 1]; }
  }

  /** The tokens of star-free `a`, `*`, star-free `b`. */
  lemma TokensStar(a: string, b: string)
    requires StarFree(a) && StarFree(b)
    ensures Tokens(a + "*" + b) == Lits(a) + ([NoSlashRun] + Lits(b))
  {
    assert a + "*" + b == a + ("*" + b);
    TokensOfStarFree(a, "*" + b);
    TokensOfStarFree(b, []);
    assert b + [] == b && Lits(b) + [] == Lits(b);
    assert ("*" + b)[1..] == b;
    assert !StartsWith("*" + b, "**") by { if b != [] { assert ("*" + b)[1] == b[0]; } }
  }

  /** A leading `**` compiles to one character and a run without '/'. */
  lemma TokensLeadingDoubleStar(b: string)
    ensures Tokens("**" + b) == [Dot, NoSlashRun] + Tokens(b)
  {
    var q := "**" + b;
    assert StartsWith(q, "**") by { assert q[..2] == "**"; }
    assert q[2..] == b;
  }

  /** A pattern without stars compiles to its literals. */
  lemma TokensStarFreeAll(b: string)
    requires StarFree(b)
    ensures Tokens(b) == Lits(b)
  {
    TokensOfStarFree(b, []);
    assert b + [] == b && Lits(b) + [] == Lits(b);
  }

  /** The tokens of star-free `a`, `**`, star-free `b`. */
  lemma TokensDoubleStar(a: string, b: string)
    requires StarFree(a) && StarFree(b)
    ensures Tokens(a + "**" + b) == Lits(a) + ([Dot] + ([NoSlashRun] + Lits(b)))
  {
    var q := "**" + b;
    var p := a + "**" + b;
    assert p == a + q;
    var tq := [Dot, NoSlashRun] + Lits(b);
    assert Tokens(q) == tq by {
      TokensLeadingDoubleStar(b);
      TokensStarFreeAll(b);
    }
    assert Tokens(p) == Lits(a) + tq by {
      TokensOfStarFree(a, q);
    }
    assert tq == [Dot] + ([NoSlashRun] + Lits(b));
  }

  /** Star-free `a`, `*`, star-free `b`: literals, a run without '/', literals. */
  lemma CompileStar(a: string, b: string)
    requires StarFree(a) && StarFree(b)
    requires a + "*" + b != "*" && a + "*" + b != "/*"
    ensures PathPatternToRegex(Some(a + "*" + b)) == Regex(Lits(a) + ([NoSlashRun] + Lits(b)), !EndsWith(b, "$"))
  {
    TokensStar(a, b);
    DollarAfterStars(a, "*", b);
  }

  /** Star-free `a`, `**`, star-free `b`: literals, one character, a run without '/', literals. */
  lemma CompileDoubleStar(a: string, b: string)
    requires StarFree(a) && StarFree(b)
    ensures PathPatternToRegex(Some(a + "**" + b)) == Regex(Lits(a) + ([Dot] + ([NoSlashRun] + Lits(b))), !EndsWith(b, "$"))
  {
    var p := a + "**" + b;
    TokensDoubleStar(a, b);
    DollarAfterStars(a, "**", b);
    assert p[|a|] == '*' && p[|a| + 1] == '*';
    assert !IsMatchAllPattern(Some(p)) by {
      if p == "/*" || p == "*" { assert false; }
    }
  }

  lemma MatchRunCons(rest: seq<Tok>, s: string)
    ensures MatchesAll([NoSlashRun] + rest, s) <==>
      exists k :: 0 <= k <= |s| && NoSlash(s[..k]) && MatchesAll(rest, s[k..])
  {
    assert ([NoSlashRun] + rest)[1..] == rest;
  }

  lemma MatchDotCons(rest: seq<Tok>, s: string)
    ensures MatchesAll([Dot] + rest, s) <==> s != [] && !IsLineTerminator(s[0]) && MatchesAll(rest, s[1..])
  {
    assert ([Dot] + rest)[1..] == rest;
  }

  /** A run without '/' followed by literals. */
  lemma RunThenLits(b: string, t: string)
    ensures MatchesAll([NoSlashRun] + Lits(b), t) <==> exists m :: NoSlash(m) && t == m + b
  {
    MatchRunCons(Lits(b), t);
    if MatchesAll([NoSlashRun] + Lits(b), t) {
      var k :| 0 <= k <= |t| && NoSlash(t[..k]) && MatchesAll(Lits(b), t[k..]);
      MatchLitsExact(b, t[k..]);
      assert t == t[..k] + b;
    }
    if exists m :: NoSlash(m) && t == m + b {
      var m :| NoSlash(m) && t == m + b;
      assert t[..|m|] == m && t[|m|..] == b;
      MatchLitsExact(b, t[|m|..]);
    }
  }

  /** What `**` compiles to matches: one character that is not a line break, then no '/'. */
  predicate DotRun(m: string) { |m| >= 1 && !IsLineTerminator(m[0]) && NoSlash(m[1..]) }

  /** One character, a run without '/', then literals. */
  lemma DotRunThenLits(b: string, t: string)
    ensures MatchesAll([Dot] + ([NoSlashRun] + Lits(b)), t) <==> exists m :: DotRun(m) && t == m + b
  {
    MatchDotCons([NoSlashRun] + Lits(b), t);
    if t != [] {
      RunThenLits(b, t[1..]);
      DotRunSplit(b, t);
    } else {
      assert forall m :: DotRun(m) ==> |m + b| >= 1;
    }
  }

  /** A string is one allowed character then a run without '/' then `b` exactly when its tail is that run then `b`. */
  lemma DotRunSplit(b: string, t: string)
    requires t != []
    ensures (exists m :: DotRun(m) && t == m + b) <==>
      !IsLineTerminator(t[0]) && exists m' :: NoSlash(m') && t[1..] == m' + b
  {
    if !IsLineTerminator(t[0]) && exists m' :: NoSlash(m') && t[1..] == m' + b {
      var m' :| NoSlash(m') && t[1..] == m' + b;
      var m := [t[0]] + m';
      assert m[1..] == m' && t == m + b;
    }
    if exists m :: DotRun(m) && t == m + b {
      var m :| DotRun(m) && t == m + b;
      assert t[0] == m[0] && t[1..] == m[1..] + b;
    }
  }

  /** Literals in front of a matcher for `m + b` give a matcher for `a + m + b`. */
  lemma LiftPrefix(a: string, toks: seq<Tok>, b: string, s: string, ok: string -> bool)
    requires forall t :: MatchesAll(toks, t) <==> exists m :: ok(m) && t == m + b
    ensures MatchesAll(Lits(a) + toks, s) <==> exists m :: ok(m) && s == a + m + b
  {
    MatchLits(a, toks, s);
    if StartsWith(s, a) {
      var t := s[|a|..];
      assert s == a + t;
      if exists m :: ok(m) && t == m + b {
        var m :| ok(m) && t == m + b;
        assert s == a + m + b;
      }
      if exists m :: ok(m) && s == a + m + b {
        var m :| ok(m) && s == a + m + b;
        assert t == (a + m + b)[|a|..] == m + b;
      }
    } else {
      forall m | ok(m) ensures s != a + m + b {
      }
    }
  }

  /** A pattern without stars is a literal path, matched exactly, metacharacters included. */
  lemma LiteralPattern(p: string, s: string)
    requires StarFree(p) && p != "" && !EndsWith(p, "$")
    ensures Test(PathPatternToRegex(Some(p)), s) <==> s == p
  {
    CompileStarFree(p);
    MatchLitsExact(p, s);
  }

  /**
   * A star-free pattern ending in `$` escapes it to `\$`, so the body ends
   * with `$` and no end anchor is added: every path that starts with the
   * pattern matches.
   */
  lemma DollarPattern(p: string, s: string)
    requires StarFree(p) && EndsWith(p, "$")
    ensures Test(PathPatternToRegex(Some(p)), s) <==> StartsWith(s, p)
  {
    CompileStarFree(p);
    forall k | 0 <= k <= |s| ensures MatchesAll(Lits(p), s[..k]) <==> s[..k] == p {
      MatchLitsExact(p, s[..k]);
    }
    if StartsWith(s, p) {
      assert s[..|p|] == p;
    }
  }

  /** A single `*` between literal parts matches exactly one run of characters without '/'. */
  lemma StarPattern(a: string, b: string, s: string)
    requires StarFree(a) && StarFree(b) && !EndsWith(b, "$")
    requires a + "*" + b != "*" && a + "*" + b != "/*"
    ensures Test(PathPatternToRegex(Some(a + "*" + b)), s) <==> exists m :: NoSlash(m) && s == a + m + b
  {
    CompileStar(a, b);
    forall t ensures MatchesAll([NoSlashRun] + Lits(b), t) <==> exists m :: NoSlash(m) && t == m + b {
      RunThenLits(b, t);
    }
    LiftPrefix(a, [NoSlashRun] + Lits(b), b, s, NoSlash);
  }

  /**
   * `**` compiles to `.[^/]*`: one character (not a line break) followed
   * by a run without '/'.  It does not match across path segments.
   */
  lemma DoubleStarPattern(a: string, b: string, s: string)
    requires StarFree(a) && StarFree(b) && !EndsWith(b, "$")
    ensures Test(PathPatternToRegex(Some(a + "**" + b)), s) <==> exists m :: DotRun(m) && s == a + m + b
  {
    CompileDoubleStar(a, b);
    forall t ensures MatchesAll([Dot] + ([NoSlashRun] + Lits(b)), t) <==> exists m :: DotRun(m) && t == m + b {
      DotRunThenLits(b, t);
    }
    LiftPrefix(a, [Dot] + ([NoSlashRun] + Lits(b)), b, s, DotRun);
  }

  /** The documented use, `**` after `/static/`, does not reach a file two segments down... */
  lemma DoubleStarStopsAtSlash()
    ensures !Test(PathPatternToRegex(Some("/static/**")), "/static/css/site.css")
  {
    var a, b, deep := "/static/", "", "/static/css/site.css";
    assert "/static/**" == a + "**" + b;
    DoubleStarPattern(a, b, deep);
    forall m | |m| >= 1 && deep == a + m + b ensures !NoSlash(m[1..]) {
      assert m == deep[8..];
      assert m[1..][2] == '/';
    }
  }

  /** ...while it does match a file directly below it. */
  lemma DoubleStarMatchesOneSegment()
    ensures Test(PathPatternToRegex(Some("/static/**")), "/static/site.css")
  {
    var a, b, flat := "/static/", "", "/static/site.css";
    assert "/static/**" == a + "**" + b;
    var m := "site.css";
    assert DotRun(m) by {
      assert m[1..] == "ite.css";
    }
    assert flat == a + m + b;
    DoubleStarPattern(a, b, flat);
  }

  // -----------------------------------------------------------------------
  // The compiler the comment at route-matcher.js:9 describes

  /**
   * The tokens when `**` becomes `.*` and only the remaining single `*`
   * become `[^/]*`, so that `**` spans any number of path segments.
   */
  function IntendedTokens(p: string): seq<Tok>
    decreases |p|
  {
    if p == [] then []
    else if StartsWith(p, "**") then [AnyRun] + IntendedTokens(p[2..])
    else if p[0] == '*' then [NoSlashRun] + IntendedTokens(p[1..])
    else [Lit(p[0])] + IntendedTokens(p[1..])
  }

  /** `pathPatternToRegex` with the replaces in the intended effect; the end anchor follows the same rule. */
  function IntendedPatternToRegex(pattern: Option<string>): Regex {
    if IsMatchAllPattern(pattern) then MatchAll
    else Regex(IntendedTokens(pattern.value), !EndsWith(Source(pattern.value), "$"))
  }

  lemma {:induction false} IntendedOfStarFree(a: string, rest: string)
    requires StarFree(a)
    ensures IntendedTokens(a + rest) == Lits(a) + IntendedTokens(rest)
    decreases |a|
  {
    if a == [] {
      assert a + rest == rest;
    } else {
      var s := a + rest;
      assert s[0] == a[0] && s[1..] == a[1..] + rest;
      assert !StartsWith(s, "**");
      IntendedOfStarFree(a[1..], rest);
    }
  }

  /** Star-free `a`, `**`, star-free `b`: literals, one run of any characters but line breaks, literals. */
  lemma IntendedDoubleStar(a: string, b: string)
    requires StarFree(a) && StarFree(b)
    ensures IntendedPatternToRegex(Some(a + "**" + b)) == Regex(Lits(a) + ([AnyRun] + Lits(b)), !EndsWith(b, "$"))
  {
    var q := "**" + b;
    var p := a + "**" + b;
    assert p == a + q;
    assert StartsWith(q, "**") by { assert q[..2] == "**"; }
    assert q[2..] == b;
    IntendedOfStarFree(b, []);
    assert b + [] == b && Lits(b) + [] == Lits(b);
    IntendedOfStarFree(a, q);
    DollarAfterStars(a, "**", b);
    assert p[|a|] == '*' && p[|a| + 1] == '*';
    assert !IsMatchAllPattern(Some(p)) by {
      if p == "/*" || p == "*" { assert false; }
    }
  }

  lemma MatchAnyCons(rest: seq<Tok>, s: string)
    ensures MatchesAll([AnyRun] + rest, s) <==>
      exists k :: 0 <= k <= |s| && NoLineBreak(s[..k]) && MatchesAll(rest, s[k..])
  {
    assert ([AnyRun] + rest)[1..] == rest;
  }

  /** A run of any characters but line breaks, followed by literals. */
  lemma AnyRunThenLits(b: string, t: string)
    ensures MatchesAll([AnyRun] + Lits(b), t) <==> exists m :: NoLineBreak(m) && t == m + b
  {
    MatchAnyCons(Lits(b), t);
    if MatchesAll([AnyRun] + Lits(b), t) {
      var k :| 0 <= k <= |t| && NoLineBreak(t[..k]) && MatchesAll(Lits(b), t[k..]);
      MatchLitsExact(b, t[k..]);
      assert t == t[..k] + b;
    }
    if exists m :: NoLineBreak(m) && t == m + b {
      var m :| NoLineBreak(m) && t == m + b;
      assert t[..|m|] == m && t[|m|..] == b;
      MatchLitsExact(b, t[|m|..]);
    }
  }

  /** With the intended compiler, `a**b` matches a, then any text without a line break, '/' included, then b. */
  lemma IntendedDoubleStarPattern(a: string, b: string, s: string)
    requires StarFree(a) && StarFree(b) && !EndsWith(b, "$")
    ensures Test(IntendedPatternToRegex(Some(a + "**" + b)), s) <==> exists m :: NoLineBreak(m) && s == a + m + b
  {
    IntendedDoubleStar(a, b);
    forall t ensures MatchesAll([AnyRun] + Lits(b), t) <==> exists m :: NoLineBreak(m) && t == m + b {
      AnyRunThenLits(b, t);
    }
    LiftPrefix(a, [AnyRun] + Lits(b), b, s, NoLineBreak);
  }

  /** With the intended compiler, "/static/" then `**` reaches a file two segments down. */
  lemma IntendedDoubleStarCrossesSlash(deep: string)
    requires deep == "/static/css/site.css"
    ensures Test(IntendedPatternToRegex(Some("/static/**")), deep)
  {
    var a, b := "/static/", "";
    assert "/static/**" == a + "**" + b;
    var m := deep[8..];
    assert NoLineBreak(m);
    assert deep == a + m + b;
    IntendedDoubleStarPattern(a, b, deep);
  }

  // -----------------------------------------------------------------------
  // Host matching

  /**
   * The host test of `findMatchingRoute`: a route without a host (or with
   * an empty one) or with `*` takes every request; otherwise the lower-cased
   * hosts must be equal, or the route's host is `*.d` and the request's
   * host is `d` or ends with `.d`.
   */
  predicate HostMatches(routeHost: Option<string>, host: Option<string>) {
    var h := if host.Some? then Lower(host.value) else "";
    if routeHost.None? || routeHost.value == "" then true
    else
      var rh := Lower(routeHost.value);
      if rh == h || rh == "*" then true
      else if StartsWith(rh, "*.") then
        var d := rh[2..];
        EndsWith(h, "." + d) || h == d
      else false
  }

  /**
   * A route without a host or with `*` takes every host; a host without a
   * leading `*` takes exactly the hosts equal to it in any letter case.
   */
  lemma HostAnyOrExact(routeHost: string, host: Option<string>)
    ensures HostMatches(None, host) && HostMatches(Some("*"), host)
    ensures routeHost != "" && !StartsWith(Lower(routeHost), "*") ==>
      (HostMatches(Some(routeHost), host) <==> Lower(routeHost) == (if host.Some? then Lower(host.value) else ""))
  {
    LowerOfStable("*");
  }

  lemma LowerConcat(a: string, b: string)
    ensures Lower(a + b) == Lower(a) + Lower(b)
  {
    var l := Lower(a + b);
    assert forall i :: 0 <= i < |a| ==> l[i] == LowerChar(a[i]);
    assert forall i :: |a| <= i < |l| ==> l[i] == LowerChar(b[i - |a|]);
  }

  /** Characters that lower-casing leaves alone. */
  predicate IsLowerStable(c: char) { !('A' <= c <= 'Z') && !('А' <= c <= 'Я') && c != 'Ё' }

  lemma LowerOfStable(s: string)
    requires forall i :: 0 <= i < |s| ==> IsLowerStable(s[i])
    ensures Lower(s) == s
  {
  }

  lemma EndsWithDomain(h: string, d: string)
    ensures EndsWith(h, "." + d) <==> exists x :: h == x + "." + d
  {
    if EndsWith(h, "." + d) {
      var x := h[..|h| - |d| - 1];
      assert h == x + ("." + d);
      assert h == x + "." + d;
    }
    if exists x :: h == x + "." + d {
      var x :| h == x + "." + d;
      assert h == x + ("." + d);
      assert h[|h| - |d| - 1..] == "." + d;
    }
  }

  /**
   * A wildcard route `*.d` (with `d` in lower case) takes the bare domain and
   * every host below it, in any letter case, and no other host.
   */
  lemma WildcardHost(d: string, host: string)
    requires Lower(d) == d
    ensures HostMatches(Some("*." + d), Some(host)) <==>
      Lower(host) == d || exists x :: Lower(host) == x + "." + d
  {
    var h := Lower(host);
    WildcardCases(d, host);
    EndsWithDomain(h, d);
    if "*." + d == h {
      assert h == "*" + "." + d;
    }
  }

  /** The three ways a host can match the wildcard route `*.d`. */
  lemma WildcardCases(d: string, host: string)
    requires Lower(d) == d
    ensures HostMatches(Some("*." + d), Some(host)) <==>
      "*." + d == Lower(host) || EndsWith(Lower(host), "." + d) || Lower(host) == d
  {
    WildcardRouteHost(d);
  }

  /** The route host `*.d` is already lower case, is not `*`, and names the domain `d`. */
  lemma WildcardRouteHost(d: string)
    requires Lower(d) == d
    ensures var rh := "*." + d; Lower(rh) == rh && rh != "*" && StartsWith(rh, "*.") && rh[2..] == d
  {
    LowerConcat("*.", d);
    LowerOfStable("*.");
    var rh := "*." + d;
    assert rh[..2] == "*.";
  }

  // -----------------------------------------------------------------------
  // matchQuery

  /** `URLSearchParams.get`: the value of the first parameter with that name, or null. */
  function QueryGet(q: seq<(string, string)>, key: string): (r: Option<string>)
    ensures r.None? <==> forall i :: 0 <= i < |q| ==> q[i].0 != key
    ensures r.Some? ==> (key, r.value) in q
  {
    if q == [] then None
    else if q[0].0 == key then Some(q[0].1)
    else
      assert forall i :: 1 <= i < |q| ==> q[i] == q[1..][i - 1];
      QueryGet(q[1..], key)
  }

  /** `get` picks the first parameter of that name. */
  lemma {:induction false} QueryGetFirst(q: seq<(string, string)>, key: string, i: nat)
    requires i < |q| && q[i].0 == key && forall j :: 0 <= j < i ==> q[j].0 != key
    ensures QueryGet(q, key) == Some(q[i].1)
  {
    if i > 0 {
      forall j | 0 <= j < i - 1 ensures q[1..][j].0 != key { assert q[1..][j] == q[j + 1]; }
      QueryGetFirst(q[1..], key, i - 1);
    }
  }

  /** JavaScript truthiness of a parameter value: present and non-empty. */
  predicate Truthy(v: Option<string>) { v.Some? && v.value != "" }

  /** One requirement of a route's `query` object. */
  predicate RulePasses(q: seq<(string, string)>, key: string, rule: QueryRule) {
    var v := QueryGet(q, key);
    match rule
      case Str(s) => if s == "*" then Truthy(v) else v == Some(s)
      case Re(test) => Truthy(v) && test(v.value)
      case OneOf(values) => v in values
      case OtherRule => true
  }

  /** The loop of `matchQuery`: false at the first requirement that fails. */
  function MatchQuery(q: seq<(string, string)>, rules: seq<(string, QueryRule)>): bool
    decreases |rules|
  {
    if rules == [] then true
    else if !RulePasses(q, rules[0].0, rules[0].1) then false
    else MatchQuery(q, rules[1..])
  }

  /** `matchQuery` holds exactly when every requirement is met (and so for no requirements). */
  lemma {:induction false} MatchQueryAll(q: seq<(string, string)>, rules: seq<(string, QueryRule)>)
    ensures MatchQuery(q, rules) <==> forall i :: 0 <= i < |rules| ==> RulePasses(q, rules[i].0, rules[i].1)
    decreases |rules|
  {
    if rules != [] {
      MatchQueryAll(q, rules[1..]);
      assert forall i :: 1 <= i < |rules| ==> rules[i] == rules[1..][i - 1];
    }
  }

  /**
   * What a string requirement demands of the first parameter with its
   * name: `*` that it is non-empty, any other string that it is equal.
   */
  lemma QueryStringRule(q: seq<(string, string)>, key: string, s: string, i: nat)
    requires i < |q| && q[i].0 == key && forall j :: 0 <= j < i ==> q[j].0 != key
    ensures RulePasses(q, key, Str(s)) <==> if s == "*" then q[i].1 != "" else q[i].1 == s
    ensures RulePasses(q, key, OneOf([Some(q[i].1)]))
  {
    QueryGetFirst(q, key, i);
  }

  /** A parameter that is absent fails `*`, every string and every regular expression. */
  lemma QueryMissingParameter(q: seq<(string, string)>, key: string, rule: QueryRule)
    requires forall i :: 0 <= i < |q| ==> q[i].0 != key
    ensures rule.Str? || rule.Re? ==> !RulePasses(q, key, rule)
    ensures rule.OneOf? ==> (RulePasses(q, key, rule) <==> None in rule.values)
  {
  }

  // -----------------------------------------------------------------------
  // findMatchingRoute

  /** The three tests of `findMatchingRoute` for one route; `path` and `query` are skipped when falsy. */
  predicate RouteMatches(r: Route, host: Option<string>, path: string, q: seq<(string, string)>) {
    HostMatches(r.hostname, host) &&
    (r.path.None? || r.path.value == "" || Test(PathPatternToRegex(r.path), path)) &&
    (r.query.None? || MatchQuery(q, r.query.value))
  }

  /** The position of the first route that matches, searching from `from`. */
  function FindFrom(routes: seq<Route>, from: nat, host: Option<string>, path: string, q: seq<(string, string)>): (r: Option<nat>)
    requires from <= |routes|
    ensures r.Some? ==> from <= r.value < |routes| && RouteMatches(routes[r.value], host, path, q)
    ensures r.Some? ==> forall j :: from <= j < r.value ==> !RouteMatches(routes[j], host, path, q)
    ensures r.None? ==> forall j :: from <= j < |routes| ==> !RouteMatches(routes[j], host, path, q)
    decreases |routes| - from
  {
    if from == |routes| then None
    else if RouteMatches(routes[from], host, path, q) then Some(from)
    else FindFrom(routes, from + 1, host, path, q)
  }

  /**
   * `findMatchingRoute` over a route table: the index of the first route
   * in table order that passes the host, path and query tests; `None`
   * (null) when none does.
   */
  function FindMatchingRoute(routes: seq<Route>, host: Option<string>, path: string, q: seq<(string, string)>): (r: Option<nat>)
    ensures r.Some? ==> r.value < |routes| && RouteMatches(routes[r.value], host, path, q)
    ensures r.Some? ==> forall j :: 0 <= j < r.value ==> !RouteMatches(routes[j], host, path, q)
    ensures r.None? ==> forall j :: 0 <= j < |routes| ==> !RouteMatches(routes[j], host, path, q)
  {
    FindFrom(routes, 0, host, path, q)
  }

  /** The host names of the shipped routes, in table order. */
  const ShippedHosts: seq<string> := ["torrent.torrservera.net", "megapeer.torrservera.net", "bitru.torrservera.net"]

  /**
   * With the shipped table, a request whose host is route i's host name in
   * any letter case, and whose path has no line break, selects route i,
   * whatever its query.
   */
  lemma ShippedRouteByHost(i: nat, host: string, path: string, q: seq<(string, string)>)
    requires i < |Routes| && Lower(host) == ShippedHosts[i] && NoLineBreak(path)
    ensures FindMatchingRoute(Routes, Some(host), path, q) == Some(i)
  {
    forall j | 0 <= j < |Routes|
      ensures HostMatches(Routes[j].hostname, Some(host)) <==> j == i
    {
      ShippedHostMatches(j, Lower(host), Some(host));
    }
    MatchAllPatterns(Routes[i].path, path);
  }

  /** A host that is none of the shipped host names, in any letter case, selects no shipped route. */
  lemma ShippedRouteNone(host: Option<string>, path: string, q: seq<(string, string)>)
    requires host.None? || Lower(host.value) !in ShippedHosts
    ensures FindMatchingRoute(Routes, host, path, q).None?
  {
    var h := if host.Some? then Lower(host.value) else "";
    forall j | 0 <= j < |Routes| ensures !HostMatches(Routes[j].hostname, host) {
      ShippedHostMatches(j, h, host);
    }
  }

  /** A shipped route takes exactly the host whose lower-cased form is its own host name. */
  lemma ShippedHostMatches(j: nat, h: string, host: Option<string>)
    requires j < |Routes| && h == (if host.Some? then Lower(host.value) else "")
    ensures Routes[j].hostname == Some(ShippedHosts[j])
    ensures HostMatches(Routes[j].hostname, host) <==> h == ShippedHosts[j]
  {
    ShippedHostNames(j);
    PlainHostMatches(ShippedHosts[j], h, host);
  }

  /** A plain lower-case route host name takes exactly the hosts that lower-case to it. */
  lemma PlainHostMatches(rh: string, h: string, host: Option<string>)
    requires rh != "" && rh[0] != '*' && Lower(rh) == rh
    requires h == (if host.Some? then Lower(host.value) else "")
    ensures HostMatches(Some(rh), host) <==> h == rh
  {
    assert |rh| >= 2 ==> rh[..2][0] == rh[0];
  }

  /** The shipped routes name their hosts in lower case, and no name is a wildcard. */
  lemma ShippedHostNames(j: nat)
    requires j < |Routes|
    ensures Routes[j].hostname == Some(ShippedHosts[j])
    ensures ShippedHosts[j] != "" && ShippedHosts[j][0] != '*' && Lower(ShippedHosts[j]) == ShippedHosts[j]
  {
    LowerOfLowerCase(ShippedHosts[j]);
  }

  /** A string without upper-case letters is its own lower-cased form. */
  lemma LowerOfLowerCase(s: string)
    requires forall k :: 0 <= k < |s| ==> ('a' <= s[k] <= 'z') || s[k] == '.'
    ensures Lower(s) == s
  {
  }

  // -----------------------------------------------------------------------
  // buildTargetUrl

  /** `origin.replace(/\/$/, '')`: at most one trailing '/' removed. */
  function StripTrailingSlash(o: string): (r: string)
    ensures EndsWith(o, "/") ==> r + "/" == o
    ensures !EndsWith(o, "/") ==> r == o
  {
    if EndsWith(o, "/") then o[..|o| - 1] else o
  }

  /**
   * The path after `route.pathRewrite`.  The replacement of the first
   * match of a pattern is the parameter `regexReplace(pattern, path,
   * replacement)`, since regular-expression replacement is not modelled.
   */
  function RewritePath(rw: Rewrite, path: string, regexReplace: (string, string, string) -> string): string {
    match rw
      case NoRewrite => path
      case RewriteFn(f) => f(path)
      case RewritePattern(pattern, replacement) =>
        if pattern.Some? && pattern.value != "" then regexReplace(pattern.value, path, OrElse(replacement, "")) else path
      case OtherRewrite => path
  }

  /** `buildTargetUrl`: an error for a route without origin, else origin (one trailing '/' removed) + path + search. */
  function BuildTargetUrl(route: Route, path: string, search: Option<string>, regexReplace: (string, string, string) -> string): (r: Result<string>)
    ensures r.Err? <==> IsEmptyOpt(route.origin)
    ensures r.Err? ==> r.message == "Route " + route.name + " has no origin configured"
  {
    if IsEmptyOpt(route.origin) then Err("Route " + route.name + " has no origin configured")
    else Ok(StripTrailingSlash(route.origin.value) + RewritePath(route.pathRewrite, path, regexReplace) + OrElse(search, ""))
  }

  /**
   * The target URL joins origin and path without losing or doubling the
   * separator: an origin ending in '/' contributes everything but that
   * '/', and a path starting with '/' then restores it.
   */
  lemma TargetUrlJoin(route: Route, path: string, search: string, regexReplace: (string, string, string) -> string)
    requires !IsEmptyOpt(route.origin) && route.pathRewrite.NoRewrite?
    requires StartsWith(path, "/")
    ensures var o := route.origin.value;
      (EndsWith(o, "/") ==> BuildTargetUrl(route, path, Some(search), regexReplace) == Ok(o + path[1..] + search)) &&
      (!EndsWith(o, "/") ==> BuildTargetUrl(route, path, Some(search), regexReplace) == Ok(o + path + search))
  {
    var o := route.origin.value;
    if EndsWith(o, "/") {
      assert path == "/" + path[1..];
      assert StripTrailingSlash(o) + path == (StripTrailingSlash(o) + "/") + path[1..];
    }
  }
}
