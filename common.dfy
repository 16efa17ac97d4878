/**
 * Shared vocabulary of the model: optional values (a C# or JavaScript
 * reference that may be null), .NET-style string primitives and a few
 * arithmetic helpers.  Strings are sequences of Unicode scalar values;
 * `string.Length` of the source counts UTF-16 code units, which agrees for
 * every character of the Basic Multilingual Plane.
 */
module Common {

  datatype Option<+T> = None | Some(value: T)

  /** A value, or the message of the exception the source throws instead. */
  datatype Result<+T> = Ok(value: T) | Err(message: string)

  /** No element occurs twice. */
  predicate Distinct<T(==)>(s: seq<T>) { forall i, j :: 0 <= i < j < |s| ==> s[i] != s[j] }

  function SetOf<T(==)>(s: seq<T>): set<T> { set x | x in s }

  /** Appending a new element keeps a sequence free of repeats. */
  lemma AppendDistinct<T>(s: seq<T>, x: T)
    requires Distinct(s) && x !in s
    ensures Distinct(s + [x])
  {
    forall i, j | 0 <= i < j < |s + [x]| ensures (s + [x])[i] != (s + [x])[j] {
      if j == |s| { assert s[i] in s; }
    }
  }

  lemma {:induction false} DistinctCard<T>(s: seq<T>)
    requires Distinct(s)
    ensures |SetOf(s)| == |s|
  {
    if s != [] {
      var t := s[..|s| - 1];
      assert Distinct(t);
      DistinctCard(t);
      assert SetOf(s) == SetOf(t) + {s[|s| - 1]};
      assert forall i :: 0 <= i < |t| ==> t[i] != s[|s| - 1] by {
        forall i | 0 <= i < |t| ensures t[i] != s[|s| - 1] {
          assert t[i] == s[i];
        }
      }
    }
  }

  /** A subset is no larger than its superset. */
  lemma SubsetCard<T>(a: set<T>, b: set<T>)
    requires a <= b
    ensures |a| <= |b|
  {
    assert b == a + (b - a);
    assert a * (b - a) == {};
  }

  // ---------------------------------------------------------------------
  // Characters

  /** `char.IsWhiteSpace`, restricted to ASCII white space and NO-BREAK SPACE. */
  predicate IsWs(c: char) {
    c == ' ' || c == '\t' || c == '\n' || c == '\r' || c == '\U{000B}' || c == '\U{000C}' || c == '\U{00A0}'
  }

  /** ASCII decimal digit (what `\d` and `char.IsDigit` accept for ASCII input). */
  predicate IsDigit(c: char) { '0' <= c <= '9' }

  predicate IsHexDigit(c: char) { IsDigit(c) || 'a' <= c <= 'f' || 'A' <= c <= 'F' }

  /** Invariant lower-casing of ASCII and of the basic Cyrillic alphabet. */
  function LowerChar(c: char): (r: char)
    ensures IsDigit(r) <==> IsDigit(c)
    ensures IsWs(r) <==> IsWs(c)
  {
    if 'A' <= c <= 'Z' then (c as int + 32) as char
    else if 'А' <= c <= 'Я' then (c as int + 32) as char
    else if c == 'Ё' then 'ё'
    else c
  }

  /** Invariant upper-casing, the inverse mapping of `LowerChar`. */
  function UpperChar(c: char): (r: char)
    ensures IsDigit(r) <==> IsDigit(c)
    ensures IsWs(r) <==> IsWs(c)
  {
    if 'a' <= c <= 'z' then (c as int - 32) as char
    else if 'а' <= c <= 'я' then (c as int - 32) as char
    else if c == 'ё' then 'Ё'
    else c
  }

  /** `ToLowerInvariant`: every character lower-cased. */
  function Lower(s: string): (r: string)
    ensures |r| == |s| && forall i :: 0 <= i < |s| ==> r[i] == LowerChar(s[i])
  {
    seq(|s|, i requires 0 <= i < |s| => LowerChar(s[i]))
  }

  /** `ToUpperInvariant`: every character upper-cased. */
  function Upper(s: string): (r: string)
    ensures |r| == |s| && forall i :: 0 <= i < |s| ==> r[i] == UpperChar(s[i])
  {
    seq(|s|, i requires 0 <= i < |s| => UpperChar(s[i]))
  }

  /** `StringComparison.OrdinalIgnoreCase`: equal after upper-casing every character. */
  predicate EqIgnoreCase(a: string, b: string) {
    |a| == |b| && forall i :: 0 <= i < |a| ==> UpperChar(a[i]) == UpperChar(b[i])
  }

  /** Lower-case ASCII letters only. */
  predicate LowerLetters(k: string) { forall i :: 0 <= i < |k| ==> 'a' <= k[i] <= 'z' }

  /** Against a lower-case ASCII word, comparing ignoring case is comparing the lower-cased text. */
  lemma EqIgnoreCaseLower(a: string, k: string)
    requires LowerLetters(k)
    ensures EqIgnoreCase(a, k) <==> Lower(a) == k
  {
    if |a| == |k| {
      forall i | 0 <= i < |a| ensures UpperChar(a[i]) == UpperChar(k[i]) <==> LowerChar(a[i]) == k[i] {
        CharIgnoreCase(a[i], k[i]);
      }
      if EqIgnoreCase(a, k) {
        assert forall i :: 0 <= i < |a| ==> Lower(a)[i] == k[i];
      }
    }
  }

  lemma CharIgnoreCase(c: char, k: char)
    requires 'a' <= k <= 'z'
    ensures UpperChar(c) == UpperChar(k) <==> LowerChar(c) == k
  {
  }

  // ---------------------------------------------------------------------
  // Blank strings and trimming

  /** `string.IsNullOrWhiteSpace` on a non-null string. */
  predicate IsBlank(s: string) { forall i :: 0 <= i < |s| ==> IsWs(s[i]) }

  /** `string.IsNullOrWhiteSpace` on a nullable string. */
  predicate IsBlankOpt(o: Option<string>) { o.None? || IsBlank(o.value) }

  /** `string.IsNullOrEmpty` on a nullable string. */
  predicate IsEmptyOpt(o: Option<string>) { o.None? || o.value == [] }

  /** The C# `??` operator on nullable strings. */
  function OrElse(o: Option<string>, d: string): string {
    if o.Some? then o.value else d
  }

  function TrimStart(s: string): (r: string)
    ensures |r| <= |s| && r == s[|s| - |r|..]
    ensures r == [] || !IsWs(r[0])
    ensures IsBlank(s[..|s| - |r|])
  {
    if s != [] && IsWs(s[0]) then TrimStart(s[1..]) else s
  }

  function TrimEnd(s: string): (r: string)
    ensures |r| <= |s| && r == s[..|r|]
    ensures r == [] || !IsWs(r[|r| - 1])
    ensures IsBlank(s[|r|..])
  {
    if s != [] && IsWs(s[|s| - 1]) then TrimEnd(s[..|s| - 1]) else s
  }

  /** `string.Trim()`. */
  function Trim(s: string): (r: string)
    ensures |r| <= |s|
    ensures r == [] || (!IsWs(r[0]) && !IsWs(r[|r| - 1]))
  {
    TrimEnd(TrimStart(s))
  }

  lemma TrimStartOfBlank(s: string)
    requires IsBlank(s)
    ensures TrimStart(s) == []
  {
  }

  lemma {:induction false} TrimStartKeepsNonBlank(s: string)
    requires !IsBlank(s)
    ensures TrimStart(s) != []
  {
    if s != [] && IsWs(s[0]) {
      assert !IsBlank(s[1..]) by {
        var i :| 0 <= i < |s| && !IsWs(s[i]);
        assert s[1..][i - 1] == s[i];
      }
      TrimStartKeepsNonBlank(s[1..]);
    }
  }

  lemma {:induction false} TrimEndKeepsNonBlank(s: string)
    requires !IsBlank(s)
    ensures TrimEnd(s) != []
  {
    if s != [] && IsWs(s[|s| - 1]) {
      assert !IsBlank(s[..|s| - 1]) by {
        var i :| 0 <= i < |s| && !IsWs(s[i]);
        assert s[..|s| - 1][i] == s[i];
      }
      TrimEndKeepsNonBlank(s[..|s| - 1]);
    }
  }

  /** `Trim` returns the empty string exactly on blank input. */
  lemma TrimEmptyIffBlank(s: string)
    ensures Trim(s) == [] <==> IsBlank(s)
  {
    if IsBlank(s) {
      TrimStartOfBlank(s);
    } else {
      TrimStartKeepsNonBlank(s);
      var t := TrimStart(s);
      assert !IsWs(t[0]);
      TrimEndKeepsNonBlank(t);
    }
  }

  /** The trimmed text of a non-blank string is non-empty and has no white space at either end. */
  lemma TrimNonBlank(s: string)
    requires !IsBlank(s)
    ensures Trim(s) != [] && !IsWs(Trim(s)[0]) && !IsWs(Trim(s)[|Trim(s)| - 1])
  {
    TrimEmptyIffBlank(s);
  }

  lemma TrimStartIdempotent(s: string)
    requires s == [] || !IsWs(s[0])
    ensures TrimStart(s) == s
  {
  }

  lemma TrimEndIdempotent(s: string)
    requires s == [] || !IsWs(s[|s| - 1])
    ensures TrimEnd(s) == s
  {
  }

  /** Trimming an already trimmed string changes nothing. */
  lemma TrimIdempotent(s: string)
    ensures Trim(Trim(s)) == Trim(s)
  {
    var t := Trim(s);
    TrimStartIdempotent(t);
    TrimEndIdempotent(t);
  }

  // ---------------------------------------------------------------------
  // Searching

  predicate StartsWith(s: string, p: string) { |p| <= |s| && s[..|p|] == p }

  predicate EndsWith(s: string, p: string) { |p| <= |s| && s[|s| - |p|..] == p }

  predicate StartsWithIgnoreCase(s: string, p: string) { |p| <= |s| && EqIgnoreCase(s[..|p|], p) }

  /** `s.Contains(sub)` with ordinal comparison. */
  predicate Contains(s: string, sub: string)
    decreases |s|
  {
    StartsWith(s, sub) || (s != [] && Contains(s[1..], sub))
  }

  predicate OccursAt(s: string, sub: string, j: int) {
    0 <= j && j + |sub| <= |s| && s[j..j + |sub|] == sub
  }

  /** A concatenation starts with its first part and ends with its second. */
  lemma AppendAffixes(a: string, b: string)
    ensures StartsWith(a + b, a) && EndsWith(a + b, b)
  {
    assert (a + b)[..|a|] == a && (a + b)[|a|..] == b;
  }

  lemma OccursShift(s: string, sub: string, j: int)
    requires s != []
    ensures OccursAt(s, sub, j) <==> (j == 0 && StartsWith(s, sub)) || (j >= 1 && OccursAt(s[1..], sub, j - 1))
  {
    if j >= 1 && j + |sub| <= |s| {
      assert s[1..][j - 1..j - 1 + |sub|] == s[j..j + |sub|];
    }
  }

  /** `s.IndexOf(sub)` with ordinal comparison: the first position of `sub`, or -1. */
  function IndexOf(s: string, sub: string): (r: int)
    ensures r == -1 || 0 <= r <= |s| - |sub|
    ensures r >= 0 ==> OccursAt(s, sub, r)
    ensures forall j :: 0 <= j < r ==> !OccursAt(s, sub, j)
    ensures r < 0 ==> forall j :: !OccursAt(s, sub, j)
    decreases |s|
  {
    if StartsWith(s, sub) then 0
    else if s == [] then -1
    else
      var k := IndexOf(s[1..], sub);
      assert forall j :: OccursAt(s, sub, j) <==> j >= 1 && OccursAt(s[1..], sub, j - 1) by {
        forall j ensures OccursAt(s, sub, j) <==> j >= 1 && OccursAt(s[1..], sub, j - 1) {
          OccursShift(s, sub, j);
        }
      }
      if k < 0 then -1 else k + 1
  }

  lemma {:induction false} ContainsIffIndexOf(s: string, sub: string)
    ensures Contains(s, sub) <==> IndexOf(s, sub) >= 0
    decreases |s|
  {
    if !StartsWith(s, sub) && s != [] {
      ContainsIffIndexOf(s[1..], sub);
    }
  }

  /** An occurrence anywhere makes `Contains` true. */
  lemma OccursContains(s: string, sub: string, j: int)
    requires OccursAt(s, sub, j)
    ensures Contains(s, sub)
  {
    ContainsIffIndexOf(s, sub);
  }

  /** `s.IndexOf(c)`: the first position of the character `c`, or -1. */
  function IndexOfChar(s: string, c: char): (r: int)
    ensures -1 <= r < |s|
    ensures r >= 0 ==> s[r] == c
    ensures forall j :: 0 <= j < |s| && (j < r || r < 0) ==> s[j] != c
  {
    if s == [] then -1
    else if s[0] == c then 0
    else
      var k := IndexOfChar(s[1..], c);
      if k < 0 then -1 else k + 1
  }

  predicate HasChar(s: string, c: char) { exists i :: 0 <= i < |s| && s[i] == c }

  lemma IndexOfCharOfSplit(p: string, c: char, q: string)
    requires !HasChar(p, c)
    ensures IndexOfChar(p + [c] + q, c) == |p|
  {
    var s := p + [c] + q;
    assert s[|p|] == c;
    assert forall j :: 0 <= j < |p| ==> s[j] == p[j];
  }

  /**
   * `s.Replace(pat, rep)` (ordinal): every non-overlapping occurrence of
   * `pat`, scanned left to right, is replaced.
   */
  function ReplaceAll(s: string, pat: string, rep: string): (r: string)
    requires pat != []
    ensures !Contains(s, pat) ==> r == s
    decreases |s|
  {
    if StartsWith(s, pat) then rep + ReplaceAll(s[|pat|..], pat, rep)
    else if s == [] then []
    else [s[0]] + ReplaceAll(s[1..], pat, rep)
  }

  /** `s.Replace(pat, rep, StringComparison.OrdinalIgnoreCase)`. */
  function ReplaceAllIgnoreCase(s: string, pat: string, rep: string): (r: string)
    requires pat != []
    decreases |s|
  {
    if StartsWithIgnoreCase(s, pat) then rep + ReplaceAllIgnoreCase(s[|pat|..], pat, rep)
    else if s == [] then []
    else [s[0]] + ReplaceAllIgnoreCase(s[1..], pat, rep)
  }

  /** `string.Join(sep, parts)`. */
  function Join(parts: seq<string>, sep: string): string {
    if parts == [] then []
    else if |parts| == 1 then parts[0]
    else parts[0] + sep + Join(parts[1..], sep)
  }

  lemma JoinAppend(parts: seq<string>, p: string, sep: string)
    requires parts != []
    ensures Join(parts + [p], sep) == Join(parts, sep) + sep + p
  {
    if |parts| > 1 {
      assert (parts + [p])[1..] == parts[1..] + [p];
      JoinAppend(parts[1..], p, sep);
    }
  }

  /**
   * `s.Split(sep)` with `StringSplitOptions.None`: the pieces between
   * occurrences of `sep`; there is always at least one piece.
   */
  function Split(s: string, sep: string): (r: seq<string>)
    requires sep != []
    ensures |r| >= 1
    ensures !Contains(s, sep) ==> r == [s]
    decreases |s|
  {
    var i := IndexOf(s, sep);
    if i < 0 then
      ContainsIffIndexOf(s, sep);
      [s]
    else
      ContainsIffIndexOf(s, sep);
      [s[..i]] + Split(s[i + |sep|..], sep)
  }

  lemma JoinCons(p: string, rest: seq<string>, sep: string)
    requires rest != []
    ensures Join([p] + rest, sep) == p + sep + Join(rest, sep)
  {
    assert ([p] + rest)[1..] == rest;
  }

  /** Splitting at the first occurrence `i` of the separator. */
  lemma SplitAtFirst(s: string, sep: string, i: int)
    requires sep != [] && i == IndexOf(s, sep) && i >= 0
    ensures Split(s, sep) == [s[..i]] + Split(s[i + |sep|..], sep)
  {
  }

  /** The text before an occurrence, the separator and the text after it make up the string. */
  lemma AroundOccurrence(s: string, sep: string, i: nat)
    requires OccursAt(s, sep, i)
    ensures s[..i] + sep + s[i + |sep|..] == s
  {
    assert s[i..i + |sep|] == sep;
    assert s == s[..i] + s[i..i + |sep|] + s[i + |sep|..];
  }

  /** Joining the pieces of a split with the same separator gives back the string. */
  lemma {:induction false} SplitJoin(s: string, sep: string)
    requires sep != []
    ensures Join(Split(s, sep), sep) == s
    decreases |s|
  {
    var i := IndexOf(s, sep);
    if i >= 0 {
      var rest := s[i + |sep|..];
      SplitAtFirst(s, sep, i);
      JoinCons(s[..i], Split(rest, sep), sep);
      SplitJoin(rest, sep);
      AroundOccurrence(s, sep, i);
    }
  }

  /** A string without the separator's first character does not contain the separator. */
  /** A word placed anywhere is contained. */
  lemma WordInside(pre: string, w: string, post: string)
    ensures Contains(pre + w + post, w)
  {
    var s := pre + w + post;
    assert s[|pre|..|pre| + |w|] == w;
    OccursContains(s, w, |pre|);
  }

  lemma NoSepNoContains(p: string, sep: string)
    requires sep != [] && !HasChar(p, sep[0])
    ensures !Contains(p, sep)
  {
    forall j | 0 <= j < |p| ensures !OccursAt(p, sep, j) {
      assert p[j] != sep[0];
    }
    ContainsIffIndexOf(p, sep);
  }

  /** The first piece of a split ends at the first separator after a piece without its first character. */
  lemma SplitFirstPiece(p: string, sep: string, rest: string)
    requires sep != [] && !HasChar(p, sep[0])
    ensures Split(p + sep + rest, sep) == [p] + Split(rest, sep)
  {
    var s := p + sep + rest;
    assert OccursAt(s, sep, |p|) by { assert s[|p|..|p| + |sep|] == sep; }
    var i := IndexOf(s, sep);
    forall j | 0 <= j < |p| ensures !OccursAt(s, sep, j) {
      assert s[j] == p[j];
    }
    assert i == |p|;
    assert s[..i] == p && s[i + |sep|..] == rest;
  }

  /**
   * Splitting a join gives back the pieces, when no piece holds the first
   * character of the separator.
   */
  lemma {:induction false} JoinSplit(parts: seq<string>, sep: string)
    requires parts != [] && sep != []
    requires forall i :: 0 <= i < |parts| ==> !HasChar(parts[i], sep[0])
    ensures Split(Join(parts, sep), sep) == parts
    decreases |parts|
  {
    if |parts| == 1 {
      NoSepNoContains(parts[0], sep);
    } else {
      var rest := Join(parts[1..], sep);
      assert Join(parts, sep) == parts[0] + sep + rest;
      SplitFirstPiece(parts[0], sep, rest);
      JoinSplit(parts[1..], sep);
      assert [parts[0]] + parts[1..] == parts;
    }
  }

  /**
   * The leftmost match of the regular expression `tag([0-9a-fA-F]{n})`
   * with `RegexOptions.IgnoreCase`: the `n` hexadecimal digits that follow
   * the first occurrence of `tag` (any letter case) that has them.
   */
  function FindHexAfter(s: string, tag: string, n: nat): (r: Option<string>)
    ensures r.Some? ==> |r.value| == n && forall i :: 0 <= i < n ==> IsHexDigit(r.value[i])
    decreases |s|
  {
    if StartsWithIgnoreCase(s, tag) && |tag| + n <= |s| && (forall j :: |tag| <= j < |tag| + n ==> IsHexDigit(s[j])) then
      Some(s[|tag|..|tag| + n])
    else if s == [] then None
    else FindHexAfter(s[1..], tag, n)
  }

  // ---------------------------------------------------------------------
  // Ordinal order on strings

  /** `string.CompareOrdinal(a, b) < 0`: lexicographic order on character codes. */
  predicate LexLess(a: string, b: string)
    decreases |a|
  {
    b != [] && (a == [] || a[0] < b[0] || (a[0] == b[0] && LexLess(a[1..], b[1..])))
  }

  lemma {:induction false} LexLessIrreflexive(a: string)
    ensures !LexLess(a, a)
    decreases |a|
  {
    if a != [] { LexLessIrreflexive(a[1..]); }
  }

  lemma {:induction false} LexLessAsymmetric(a: string, b: string)
    ensures !(LexLess(a, b) && LexLess(b, a))
    decreases |a|
  {
    if a != [] && b != [] && a[0] == b[0] { LexLessAsymmetric(a[1..], b[1..]); }
  }

  lemma {:induction false} LexLessTransitive(a: string, b: string, c: string)
    requires LexLess(a, b) && LexLess(b, c)
    ensures LexLess(a, c)
    decreases |a|
  {
    if a != [] && a[0] == b[0] && b[0] == c[0] {
      LexLessTransitive(a[1..], b[1..], c[1..]);
    }
  }

  lemma {:induction false} LexLessTotal(a: string, b: string)
    ensures a == b || LexLess(a, b) || LexLess(b, a)
    decreases |a|
  {
    if a != [] && b != [] && a[0] == b[0] {
      LexLessTotal(a[1..], b[1..]);
      if a[1..] == b[1..] {
        assert a == [a[0]] + a[1..] && b == [b[0]] + b[1..];
      }
    }
  }

  // ---------------------------------------------------------------------
  // Digits and numbers

  predicate AllDigits(s: string) { forall i :: 0 <= i < |s| ==> IsDigit(s[i]) }

  function DigitValue(c: char): nat requires IsDigit(c) { c as int - '0' as int }

  /** The value of a string of ASCII digits (what `int.Parse` returns). */
  function DigitsValue(s: string): nat
    requires AllDigits(s)
  {
    if s == [] then 0 else DigitsValue(s[..|s| - 1]) * 10 + DigitValue(s[|s| - 1])
  }

  function DigitChar(d: nat): (c: char)
    requires d < 10
    ensures IsDigit(c) && DigitValue(c) == d
  {
    ('0' as int + d) as char
  }

  /** Decimal rendering of a natural number, without leading zeros. */
  function NatToString(n: nat): (r: string)
    ensures r != [] && AllDigits(r)
    ensures DigitsValue(r) == n
    ensures n > 0 ==> r[0] != '0'
  {
    if n < 10 then [DigitChar(n)]
    else
      var r := NatToString(n / 10) + [DigitChar(n % 10)];
      assert r[..|r| - 1] == NatToString(n / 10);
      r
  }

  /** `int.ToString()` (invariant culture). */
  function IntToString(i: int): string {
    if i < 0 then "-" + NatToString(-i) else NatToString(i)
  }

  /** The first position at or after `i` that is not white space. */
  function SkipWs(s: string, i: nat): (r: nat)
    requires i <= |s|
    ensures i <= r <= |s| && (r == |s| || !IsWs(s[r]))
    ensures forall k :: i <= k < r ==> IsWs(s[k])
    decreases |s| - i
  {
    if i < |s| && IsWs(s[i]) then SkipWs(s, i + 1) else i
  }

  /** The first position at or after `i` that is not a digit. */
  function SkipDigits(s: string, i: nat): (r: nat)
    requires i <= |s|
    ensures i <= r <= |s| && (r == |s| || !IsDigit(s[r]))
    ensures forall k :: i <= k < r ==> IsDigit(s[k])
    decreases |s| - i
  {
    if i < |s| && IsDigit(s[i]) then SkipDigits(s, i + 1) else i
  }

  /** `w` occurs in `s` at position `i`. */
  predicate WordAt(s: string, i: nat, w: string) { i + |w| <= |s| && s[i..i + |w|] == w }

  /** The leftmost position in `[i, n)` where `f` matches, as `Regex.Match` scans. */
  function Leftmost<T>(f: nat -> Option<T>, i: nat, n: nat): (r: Option<nat>)
    ensures r.Some? ==> i <= r.value < n && f(r.value).Some?
    ensures r.Some? ==> forall j :: i <= j < r.value ==> f(j).None?
    ensures r.None? ==> forall j :: i <= j < n ==> f(j).None?
    decreases n - i
  {
    if i >= n then None
    else if f(i).Some? then Some(i)
    else Leftmost(f, i + 1, n)
  }

  /** The scan finds the first matching position. */
  lemma {:induction false} LeftmostIs<T>(f: nat -> Option<T>, i: nat, n: nat, k: nat)
    requires i <= k < n && f(k).Some?
    requires forall j :: i <= j < k ==> f(j).None?
    ensures Leftmost(f, i, n) == Some(k)
    decreases k - i
  {
    if i < k {
      LeftmostIs(f, i + 1, n, k);
    }
  }

  /** `key([^;]+)(;|$)` at `k`: the non-empty value up to the next ';' or the end of the line. */
  function CookieValueAt(line: string, key: string, k: nat): (r: Option<string>)
    ensures r.Some? ==> r.value != [] && !HasChar(r.value, ';')
  {
    if !WordAt(line, k, key) then None
    else
      var st := k + |key|;
      var e := IndexOfChar(line[st..], ';');
      var v := if e < 0 then line[st..] else line[st..st + e];
      assert forall j :: 0 <= j < |v| ==> v[j] == line[st..][j];
      if v == [] then None else Some(v)
  }

  /** Group 1 of the leftmost match of `key([^;]+)(;|$)` in a Set-Cookie line. */
  function CookieMatch(line: string, key: string): (r: Option<string>)
    ensures r.Some? ==> r.value != [] && !HasChar(r.value, ';')
  {
    var k := Leftmost((j: nat) => CookieValueAt(line, key, j), 0, |line| + 1);
    if k.Some? then CookieValueAt(line, key, k.value) else None
  }

  /** A value at the very start of the line, right after `key` and ended by ';', is the one matched. */
  lemma CookieMatchAtStart(key: string, v: string, rest: string)
    requires v != [] && !HasChar(v, ';')
    ensures CookieMatch(key + v + [';'] + rest, key) == Some(v)
  {
    var line := key + v + [';'] + rest;
    CookieValueAtStart(key, v, rest);
    LeftmostIs((j: nat) => CookieValueAt(line, key, j), 0, |line| + 1, 0);
  }

  lemma CookieValueAtStart(key: string, v: string, rest: string)
    requires v != [] && !HasChar(v, ';')
    ensures CookieValueAt(key + v + [';'] + rest, key, 0) == Some(v)
  {
    var line := key + v + [';'] + rest;
    assert line[..|key|] == key;
    assert line[|key|..] == v + [';'] + rest;
    IndexOfCharOfSplit(v, ';', rest);
    assert line[|key|..|key| + |v|] == v;
  }

  /** No occurrence of `key` starts before position `n` of `line`. */
  predicate NoKeyBefore(line: string, key: string, n: nat) { forall j :: 0 <= j < n ==> !WordAt(line, j, key) }

  /** `key` occurs nowhere in `s`. */
  predicate KeyFree(s: string, key: string) { forall j :: 0 <= j < |s| ==> !WordAt(s, j, key) }

  /** A value right after `key`, where no earlier occurrence of `key` starts, ended by ';' or the end of the line, is the one matched. */
  lemma CookieMatchAfter(line: string, key: string, n: nat, v: string)
    requires n + |key| + |v| <= |line| && line[n..n + |key|] == key && line[n + |key|..n + |key| + |v|] == v
    requires v != [] && !HasChar(v, ';')
    requires n + |key| + |v| == |line| || line[n + |key| + |v|] == ';'
    requires NoKeyBefore(line, key, n)
    ensures CookieMatch(line, key) == Some(v)
  {
    CookieValueAfter(line, key, n, v);
    LeftmostIs((j: nat) => CookieValueAt(line, key, j), 0, |line| + 1, n);
  }

  lemma CookieValueAfter(line: string, key: string, n: nat, v: string)
    requires n + |key| + |v| <= |line| && line[n..n + |key|] == key && line[n + |key|..n + |key| + |v|] == v
    requires v != [] && !HasChar(v, ';')
    requires n + |key| + |v| == |line| || line[n + |key| + |v|] == ';'
    ensures CookieValueAt(line, key, n) == Some(v)
  {
    var st := n + |key|;
    var tail := line[st..];
    if st + |v| == |line| {
      assert tail == v;
    } else {
      assert tail == v + [';'] + line[st + |v| + 1..];
      IndexOfCharOfSplit(v, ';', line[st + |v| + 1..]);
    }
  }

  /** Literal text that lacks the key's first character starts no occurrence of it. */
  lemma NoKeyText(line: string, key: string, n: nat, t: string)
    requires NoKeyBefore(line, key, n) && key != []
    requires n + |t| <= |line| && line[n..n + |t|] == t && !HasChar(t, key[0])
    ensures NoKeyBefore(line, key, n + |t|)
  {
    forall j | n <= j < n + |t| ensures !WordAt(line, j, key) {
      assert line[j] == t[j - n];
    }
  }

  /** A ';'-free value without the key, followed by ';', starts no occurrence of a ';'-free key. */
  lemma NoKeyValue(line: string, key: string, n: nat, v: string)
    requires NoKeyBefore(line, key, n) && !HasChar(key, ';')
    requires n + |v| < |line| && line[n..n + |v|] == v && line[n + |v|] == ';' && KeyFree(v, key)
    ensures NoKeyBefore(line, key, n + |v|)
  {
    forall j | n <= j < n + |v| ensures !WordAt(line, j, key) {
      if j + |key| <= n + |v| {
        SliceOfSlice(line, n, n + |v|, j - n, j - n + |key|);
        assert !WordAt(v, j - n, key);
      } else {
        assert key[n + |v| - j] != line[n + |v|];
      }
    }
  }

  lemma SliceOfSlice(s: string, n: nat, m: nat, i: nat, k: nat)
    requires n <= m <= |s| && i <= k <= m - n
    ensures s[n..m][i..k] == s[n + i..n + k]
  {
    forall p | 0 <= p < k - i ensures s[n..m][i..k][p] == s[n + i..n + k][p] {
      assert s[n..m][i..k][p] == s[n..m][i + p] == s[n + i + p];
    }
  }

  function Max(a: int, b: int): int { if a >= b then a else b }
  function Min(a: int, b: int): int { if a <= b then a else b }

  /** `Math.Max(lo, Math.Min(hi, x))`. */
  function Clamp(x: int, lo: int, hi: int): (r: int)
    requires lo <= hi
    ensures lo <= r <= hi
    ensures lo <= x <= hi ==> r == x
    ensures x < lo ==> r == lo
    ensures x > hi ==> r == hi
  {
    Max(lo, Min(hi, x))
  }

  // -----------------------------------------------------------------------
  // Sums over an enumeration of keys

  /** `f(ks[0]) + ... + f(ks[|ks| - 1])`, the total a loop over `ks` accumulates. */
  function SumOver(ks: seq<string>, f: string -> nat): nat
    decreases |ks|
  {
    if ks == [] then 0 else SumOver(ks[..|ks| - 1], f) + f(ks[|ks| - 1])
  }

  /** The number of keys in `ks` satisfying `p`, a counter a loop over `ks` bumps. */
  function CountOf(ks: seq<string>, p: string -> bool): nat
    decreases |ks|
  {
    if ks == [] then 0 else CountOf(ks[..|ks| - 1], p) + (if p(ks[|ks| - 1]) then 1 else 0)
  }

  /** A counter over an enumeration without repeats counts a set. */
  lemma {:induction false} CountOfDistinct(ks: seq<string>, p: string -> bool)
    requires Distinct(ks)
    ensures CountOf(ks, p) == |set k | k in ks && p(k)|
    decreases |ks|
  {
    if ks != [] {
      var t := ks[..|ks| - 1];
      var x := ks[|ks| - 1];
      assert Distinct(t);
      CountOfDistinct(t, p);
      assert x !in t by {
        forall i | 0 <= i < |t| ensures t[i] != x {
          assert t[i] == ks[i];
        }
      }
      assert ks == t + [x];
      if p(x) {
        assert (set k | k in ks && p(k)) == (set k | k in t && p(k)) + {x};
      } else {
        assert (set k | k in ks && p(k)) == (set k | k in t && p(k));
      }
    }
  }

  /** The keys of `keys` satisfying `p`. */
  function Filter(keys: set<string>, p: string -> bool): set<string> {
    set k | k in keys && p(k)
  }

  /** Filtering one more key adds it exactly when it satisfies `p`. */
  lemma FilterAdd(keys: set<string>, p: string -> bool, x: string)
    ensures Filter(keys + {x}, p) == if p(x) then Filter(keys, p) + {x} else Filter(keys, p)
  {
  }

  /** A set that tracks `base` plus the filtered keys keeps doing so when one more key is filtered. */
  lemma FilterStep(base: set<string>, keys: set<string>, p: string -> bool, x: string, before: set<string>, after: set<string>)
    requires before == base + Filter(keys, p)
    requires after == if p(x) then before + {x} else before
    ensures after == base + Filter(keys + {x}, p)
  {
    FilterAdd(keys, p, x);
  }

  /** The keys of `ks` satisfying `p`, in their order in `ks`. */
  function SeqFilter(ks: seq<string>, p: string -> bool): seq<string>
    decreases |ks|
  {
    if ks == [] then [] else SeqFilter(ks[..|ks| - 1], p) + (if p(ks[|ks| - 1]) then [ks[|ks| - 1]] else [])
  }

  /** The filtered keys are exactly the keys satisfying `p`, without repeats when `ks` has none. */
  lemma {:induction false} SeqFilterMembers(ks: seq<string>, p: string -> bool)
    ensures forall x :: x in SeqFilter(ks, p) <==> x in ks && p(x)
    ensures Distinct(ks) ==> Distinct(SeqFilter(ks, p))
    decreases |ks|
  {
    if ks != [] {
      var q, last := ks[..|ks| - 1], ks[|ks| - 1];
      assert ks == q + [last];
      SeqFilterMembers(q, p);
      if Distinct(ks) {
        assert Distinct(q) by {
          forall i, j | 0 <= i < j < |q| ensures q[i] != q[j] {
            assert q[i] == ks[i] && q[j] == ks[j];
          }
        }
        assert last !in q by {
          forall j | 0 <= j < |q| ensures q[j] != last {
            assert q[j] == ks[j];
          }
        }
      }
    }
  }
}
