/** The JavaScript string operations the core relies on: `trim`, `toLowerCase`,
    `toUpperCase`, `split` with `join`, and the comparison of digit strings that
    `localeCompare` performs when it orders the dataset's date keys. */
module JsStrings {

  // ---------------------------------------------------------------------------
  // trim
  // ---------------------------------------------------------------------------

  /** The characters `String.prototype.trim` removes: the ECMAScript WhiteSpace
      and LineTerminator code points. */
  predicate IsWhitespace(c: char) {
    c == '\t' || c == '\n' || c == '\U{000B}' || c == '\U{000C}' || c == '\r' || c == ' '
    || c == '\U{00A0}' || c == '\U{1680}' || ('\U{2000}' <= c <= '\U{200A}')
    || c == '\U{2028}' || c == '\U{2029}' || c == '\U{202F}' || c == '\U{205F}'
    || c == '\U{3000}' || c == '\U{FEFF}'
  }

  /** A string with no whitespace at either end. */
  predicate IsTrimmed(s: string) {
    s == [] || (!IsWhitespace(s[0]) && !IsWhitespace(s[|s| - 1]))
  }

  /** Drops the leading whitespace: the result is a suffix of `s`, what was
      dropped is all whitespace and what is left does not start with any. */
  function TrimStart(s: string): (r: string)
    ensures |r| <= |s| && r == s[|s| - |r|..]
    ensures forall i :: 0 <= i < |s| - |r| ==> IsWhitespace(s[i])
    ensures r != [] ==> !IsWhitespace(r[0])
  {
    if s != [] && IsWhitespace(s[0]) then TrimStart(s[1..]) else s
  }

  /** Drops the trailing whitespace: the result is a prefix of `s`, what was
      dropped is all whitespace and what is left does not end with any. */
  function TrimEnd(s: string): (r: string)
    ensures |r| <= |s| && r == s[..|r|]
    ensures forall i :: |r| <= i < |s| ==> IsWhitespace(s[i])
    ensures r != [] ==> !IsWhitespace(r[|r| - 1])
  {
    if s != [] && IsWhitespace(s[|s| - 1]) then TrimEnd(s[..|s| - 1]) else s
  }

  /** `s.trim()`: both ends stripped of whitespace. */
  function Trim(s: string): (r: string)
    ensures IsTrimmed(r) && |r| <= |s|
  {
    var t := TrimStart(s);
    var r := TrimEnd(t);
    assert r != [] ==> r[0] == t[0];
    r
  }

  /** `s` is the result of `trim` with whitespace added on both sides. */
  lemma TrimIsUnpadding(s: string)
    ensures exists a, b :: 0 <= a <= b <= |s| && Trim(s) == s[a..b]
                           && (forall i :: 0 <= i < a ==> IsWhitespace(s[i]))
                           && (forall i :: b <= i < |s| ==> IsWhitespace(s[i]))
  {
    var t := TrimStart(s);
    var r := TrimEnd(t);
    TrimUnfold(s);
    var a, b := Unpad(s, t, r, IsWhitespace);
    assert Trim(s) == s[a..b];
  }

  /** A prefix `r` of a suffix `t` of `s`, where what `s` has before `t` and
      what `t` has after `r` all satisfy `p`, is a slice of `s` between two
      runs of `p`. */
  lemma Unpad<T>(s: seq<T>, t: seq<T>, r: seq<T>, p: T -> bool) returns (a: nat, b: nat)
    requires |t| <= |s| && t == s[|s| - |t|..]
    requires |r| <= |t| && r == t[..|r|]
    requires forall i :: 0 <= i < |s| - |t| ==> p(s[i])
    requires forall i :: |r| <= i < |t| ==> p(t[i])
    ensures a <= b <= |s| && r == s[a..b]
    ensures forall i :: 0 <= i < a ==> p(s[i])
    ensures forall i :: b <= i < |s| ==> p(s[i])
  {
    a, b := |s| - |t|, |s| - |t| + |r|;
    forall i | b <= i < |s|
      ensures p(s[i])
    {
      assert s[i] == t[i - a];
    }
  }

  lemma TrimOfTrimmed(s: string)
    requires IsTrimmed(s)
    ensures Trim(s) == s
  {
    if s != [] {
      assert TrimStart(s) == s;
      assert TrimEnd(s) == s;
    }
  }

  /** Trimming twice is trimming once. */
  lemma TrimIdempotent(s: string)
    ensures Trim(Trim(s)) == Trim(s)
  {
    TrimOfTrimmed(Trim(s));
  }

  /** Whitespace around a trimmed string is exactly what `trim` removes. */
  lemma {:induction false} TrimPadded(pre: string, s: string, post: string)
    requires forall i :: 0 <= i < |pre| ==> IsWhitespace(pre[i])
    requires forall i :: 0 <= i < |post| ==> IsWhitespace(post[i])
    requires IsTrimmed(s) && s != []
    ensures Trim(pre + s + post) == s
  {
    ConcatAssoc(pre, s, post);
    TrimStartPadded(pre, s + post);
    TrimEndPadded(s, post);
    TrimUnfold(pre + s + post);
  }

  lemma TrimUnfold(s: string)
    ensures Trim(s) == TrimEnd(TrimStart(s))
  {
  }

  lemma {:induction false} TrimStartPadded(pre: string, s: string)
    requires forall i :: 0 <= i < |pre| ==> IsWhitespace(pre[i])
    requires s != [] && !IsWhitespace(s[0])
    ensures TrimStart(pre + s) == s
  {
    if pre == [] {
      assert pre + s == s;
    } else {
      assert (pre + s)[1..] == pre[1..] + s;
      TrimStartPadded(pre[1..], s);
    }
  }

  lemma {:induction false} TrimEndPadded(s: string, post: string)
    requires forall i :: 0 <= i < |post| ==> IsWhitespace(post[i])
    requires s != [] && !IsWhitespace(s[|s| - 1])
    ensures TrimEnd(s + post) == s
  {
    if post == [] {
      assert s + post == s;
    } else {
      assert (s + post)[..|s + post| - 1] == s + post[..|post| - 1];
      TrimEndPadded(s, post[..|post| - 1]);
    }
  }

  // ---------------------------------------------------------------------------
  // toLowerCase / toUpperCase
  // ---------------------------------------------------------------------------

  predicate IsUpperLetter(c: char) {
    ('A' <= c <= 'Z') || ('\U{00C0}' <= c <= '\U{00DE}' && c != '\U{00D7}')
  }

  predicate IsLowerLetter(c: char) {
    ('a' <= c <= 'z') || ('\U{00E0}' <= c <= '\U{00FE}' && c != '\U{00F7}')
  }

  /** One character of `toLowerCase`, over the Basic Latin and Latin-1 letters
      whose case partner is one Latin-1 letter (so not ÿ, µ or ß). */
  function LowerChar(c: char): char {
    if IsUpperLetter(c) then (c as int + 32) as char else c
  }

  /** One character of `toUpperCase`, over the same letters as `LowerChar`. */
  function UpperChar(c: char): char {
    if IsLowerLetter(c) then (c as int - 32) as char else c
  }

  /** Lower-casing leaves no upper-case letter and changes only upper-case
      letters, into the lower-case letters that upper-case back to them; and
      symmetrically for upper-casing. */
  lemma CaseFolding(c: char)
    ensures !IsUpperLetter(LowerChar(c))
    ensures IsUpperLetter(c) ==> IsLowerLetter(LowerChar(c)) && UpperChar(LowerChar(c)) == c
    ensures !IsUpperLetter(c) ==> LowerChar(c) == c
    ensures !IsLowerLetter(UpperChar(c))
    ensures IsLowerLetter(c) ==> IsUpperLetter(UpperChar(c)) && LowerChar(UpperChar(c)) == c
    ensures !IsLowerLetter(c) ==> UpperChar(c) == c
  {
  }

  /** `s.toLowerCase()`: the same length, each character folded on its own. */
  function ToLower(s: string): (r: string)
    ensures |r| == |s|
    ensures forall i :: 0 <= i < |s| ==> r[i] == LowerChar(s[i])
  {
    if s == [] then [] else [LowerChar(s[0])] + ToLower(s[1..])
  }

  /** `s.toUpperCase()`: the same length, each character folded on its own. */
  function ToUpper(s: string): (r: string)
    ensures |r| == |s|
    ensures forall i :: 0 <= i < |s| ==> r[i] == UpperChar(s[i])
  {
    if s == [] then [] else [UpperChar(s[0])] + ToUpper(s[1..])
  }

  /** A string with no upper-case letter is its own lower-case form. */
  lemma ToLowerOfLower(s: string)
    requires forall i :: 0 <= i < |s| ==> !IsUpperLetter(s[i])
    ensures ToLower(s) == s
  {
  }

  /** Folding to lower case twice is folding once. */
  lemma ToLowerIdempotent(s: string)
    ensures ToLower(ToLower(s)) == ToLower(s)
  {
    forall c {
      CaseFolding(c);
    }
    ToLowerOfLower(ToLower(s));
  }

  /** Folding to upper case twice is folding once. */
  lemma ToUpperIdempotent(s: string)
    ensures ToUpper(ToUpper(s)) == ToUpper(s)
  {
    var u := ToUpper(s);
    forall i | 0 <= i < |u|
      ensures UpperChar(u[i]) == u[i]
    {
      CaseFolding(s[i]);
    }
  }

  /** Lower-casing preserves emptiness, which is how a JavaScript falsy
      string stays falsy after `toLowerCase`. */
  lemma ToLowerEmpty(s: string)
    ensures ToLower(s) == [] <==> s == []
  {
  }

  // ---------------------------------------------------------------------------
  // length
  // ---------------------------------------------------------------------------

  /** The number of UTF-16 code units of one character: two for a character
      outside the Basic Multilingual Plane, which JavaScript stores as a
      surrogate pair. */
  function CodeUnits(c: char): nat {
    if c as int > 0xFFFF then 2 else 1
  }

  /** `s.length`: the number of UTF-16 code units. It lies between the number
      of characters and twice that, and equals the number of characters
      exactly when every character is in the Basic Multilingual Plane. */
  function Utf16Length(s: string): (n: nat)
    ensures |s| <= n <= 2 * |s|
    ensures n == |s| <==> forall i :: 0 <= i < |s| ==> CodeUnits(s[i]) == 1
  {
    if s == [] then 0
    else
      var n := CodeUnits(s[0]) + Utf16Length(s[1..]);
      assert forall i :: 1 <= i < |s| ==> s[i] == s[1..][i - 1];
      n
  }

  /** A single character outside the Basic Multilingual Plane has length 2. */
  lemma Utf16LengthOfAstral(c: char)
    requires c as int > 0xFFFF
    ensures Utf16Length([c]) == 2
  {
    assert [c][1..] == [];
  }

  // ---------------------------------------------------------------------------
  // split / join
  // ---------------------------------------------------------------------------

  /** `s.indexOf(c)` for one character: -1 when absent, else the first position. */
  function IndexOfChar(s: string, c: char): (r: int)
    ensures -1 <= r < |s|
    ensures r == -1 <==> c !in s
    ensures r >= 0 ==> s[r] == c && c !in s[..r]
  {
    if s == [] then -1
    else if s[0] == c then 0
    else
      var k := IndexOfChar(s[1..], c);
      if k == -1 then -1
      else
        assert s[..k + 1] == [s[0]] + s[1..][..k];
        k + 1
  }

  /** `parts.join(sep)` for a one-character separator. */
  function Join(parts: seq<string>, sep: char): string {
    if |parts| == 0 then ""
    else if |parts| == 1 then parts[0]
    else parts[0] + [sep] + Join(parts[1..], sep)
  }

  /** `s.split(sep)` for a one-character separator: the pieces between the
      separators, in order; at least one piece, and none holds `sep`. */
  function Split(s: string, sep: char): (parts: seq<string>)
    ensures |parts| >= 1
    ensures forall k :: 0 <= k < |parts| ==> sep !in parts[k]
    decreases |s|
  {
    var i := IndexOfChar(s, sep);
    if i < 0 then [s] else [s[..i]] + Split(s[i + 1..], sep)
  }

  /** Joining the pieces of a split gives back the original string. */
  lemma {:induction false} JoinSplit(s: string, sep: char)
    ensures Join(Split(s, sep), sep) == s
    decreases |s|
  {
    var i := IndexOfChar(s, sep);
    if i >= 0 {
      var head, tail := s[..i], s[i + 1..];
      var rest := Split(tail, sep);
      JoinSplit(tail, sep);
      assert Split(s, sep) == [head] + rest;
      JoinCons(head, rest, sep);
      assert s == head + [sep] + tail;
    }
  }

  lemma JoinCons(head: string, rest: seq<string>, sep: char)
    requires |rest| >= 1
    ensures Join([head] + rest, sep) == head + [sep] + Join(rest, sep)
  {
    assert ([head] + rest)[0] == head;
    assert ([head] + rest)[1..] == rest;
  }

  /** Splitting a string with no separator gives the string itself. */
  lemma SplitNoSeparator(s: string, sep: char)
    requires sep !in s
    ensures Split(s, sep) == [s]
  {
  }

  /** A string with at least two pieces is its first piece, the separator,
      its second piece and a remainder that is empty or starts with the
      separator. */
  lemma SplitFirstTwo(s: string, sep: char) returns (rest: string)
    requires |Split(s, sep)| >= 2
    ensures s == Split(s, sep)[0] + [sep] + Split(s, sep)[1] + rest
    ensures rest == [] || rest[0] == sep
  {
    var i := IndexOfChar(s, sep);
    var t := s[i + 1..];
    assert Split(s, sep) == [s[..i]] + Split(t, sep);
    var j := IndexOfChar(t, sep);
    var b: string;
    if j < 0 {
      b, rest := t, [];
      assert Split(t, sep) == [t];
      assert t == b + rest;
    } else {
      b, rest := t[..j], t[j..];
      assert Split(t, sep)[0] == b;
      assert t == b + rest;
    }
    CutAround(s, i);
    ConcatAssoc(s[..i] + [sep], b, rest);
  }

  /** A string is what comes before position `i`, the character there and
      what comes after. */
  lemma CutAround(s: string, i: nat)
    requires i < |s|
    ensures s == s[..i] + [s[i]] + s[i + 1..]
  {
  }

  lemma ConcatAssoc(a: string, b: string, c: string)
    ensures a + (b + c) == a + b + c
  {
  }

  /** The converse: the first two pieces of `a`, the separator, `b` and a
      remainder that is empty or starts with the separator are `a` and `b`. */
  lemma SplitOfFirstTwo(a: string, sep: char, b: string, rest: string)
    requires sep !in a && sep !in b && (rest == [] || rest[0] == sep)
    ensures var parts := Split(a + [sep] + b + rest, sep);
            |parts| >= 2 && parts[0] == a && parts[1] == b
  {
    var tail := b + rest;
    ConcatAssoc(a + [sep], b, rest);
    SplitAroundSeparator(a, sep, tail);
    SplitLeadingPiece(b, sep, rest);
  }

  /** The first piece of `b` followed by nothing or by a separator is `b`. */
  lemma SplitLeadingPiece(b: string, sep: char, rest: string)
    requires sep !in b && (rest == [] || rest[0] == sep)
    ensures Split(b + rest, sep)[0] == b
  {
    if rest == [] {
      assert b + rest == b;
      SplitNoSeparator(b, sep);
    } else {
      var more := rest[1..];
      assert rest == [sep] + more;
      ConcatAssoc(b, [sep], more);
      SplitAroundSeparator(b, sep, more);
    }
  }

  /** `split` followed by destructuring `[first, ...rest]` and
      `rest.join(sep)`: the text before the first separator, and the text
      after it. */
  lemma SplitFirst(s: string, sep: char)
    ensures var i := IndexOfChar(s, sep);
            var parts := Split(s, sep);
            if i < 0 then parts[0] == s && Join(parts[1..], sep) == ""
            else parts[0] == s[..i] && Join(parts[1..], sep) == s[i + 1..]
  {
    var i := IndexOfChar(s, sep);
    if i >= 0 {
      var tail := Split(s[i + 1..], sep);
      assert Split(s, sep) == [s[..i]] + tail;
      assert Split(s, sep)[1..] == tail;
      JoinSplit(s[i + 1..], sep);
    } else {
      assert Split(s, sep) == [s];
      assert Split(s, sep)[1..] == [];
    }
  }

  /** The first two pieces of `g + [sep] + t` when `g` holds no separator. */
  lemma SplitAroundSeparator(g: string, sep: char, t: string)
    requires sep !in g
    ensures IndexOfChar(g + [sep] + t, sep) == |g|
    ensures Split(g + [sep] + t, sep)[0] == g
    ensures Split(g + [sep] + t, sep)[1..] == Split(t, sep)
  {
    var s := g + [sep] + t;
    assert s[|g|] == sep;
    assert s[..|g|] == g;
    assert s[|g| + 1..] == t;
  }

  // ---------------------------------------------------------------------------
  // Order of strings and digit strings
  // ---------------------------------------------------------------------------

  /** Code-unit lexicographic order: a proper prefix comes first, otherwise the
      first differing character decides. */
  predicate LexLess(a: string, b: string) {
    if a == [] then b != []
    else if b == [] then false
    else if a[0] != b[0] then a[0] < b[0]
    else LexLess(a[1..], b[1..])
  }

  predicate LexLessEq(a: string, b: string) {
    a == b || LexLess(a, b)
  }

  lemma {:induction false} LexLessIrreflexive(a: string)
    ensures !LexLess(a, a)
  {
    if a != [] {
      LexLessIrreflexive(a[1..]);
    }
  }

  lemma {:induction false} LexLessTransitive(a: string, b: string, c: string)
    requires LexLess(a, b) && LexLess(b, c)
    ensures LexLess(a, c)
  {
    if a != [] && b != [] && c != [] && a[0] == b[0] && b[0] == c[0] {
      LexLessTransitive(a[1..], b[1..], c[1..]);
    }
  }

  /** Any two different strings are ordered one way or the other. */
  lemma {:induction false} LexLessTotal(a: string, b: string)
    ensures a == b || LexLess(a, b) || LexLess(b, a)
  {
    if a != [] && b != [] && a[0] == b[0] {
      LexLessTotal(a[1..], b[1..]);
      if a[1..] == b[1..] {
        assert a == [a[0]] + a[1..] && b == [b[0]] + b[1..];
      }
    }
  }

  /** Two strings are never ordered both ways, and a string is never ordered
      before itself. */
  lemma LexLessNotBoth(a: string, b: string)
    ensures LexLess(a, b) ==> !LexLess(b, a) && a != b
  {
    if LexLess(a, b) {
      LexLessAsymmetric(a, b);
      LexLessIrreflexive(a);
    }
  }

  lemma {:induction false} LexLessAsymmetric(a: string, b: string)
    requires LexLess(a, b)
    ensures !LexLess(b, a)
  {
    if LexLess(b, a) {
      LexLessTransitive(a, b, a);
      LexLessIrreflexive(a);
    }
  }

  /** Comparing two concatenations whose first parts have the same length: the
      first parts decide, and the second parts break a tie. */
  lemma {:induction false} LexLessConcat(a1: string, b1: string, a2: string, b2: string)
    requires |a1| == |a2|
    ensures LexLess(a1 + b1, a2 + b2) <==> LexLess(a1, a2) || (a1 == a2 && LexLess(b1, b2))
  {
    if a1 == [] {
      assert a1 + b1 == b1 && a2 + b2 == b2;
    } else {
      assert (a1 + b1)[1..] == a1[1..] + b1;
      assert (a2 + b2)[1..] == a2[1..] + b2;
      LexLessConcat(a1[1..], b1, a2[1..], b2);
      if a1[0] == a2[0] && a1[1..] == a2[1..] {
        assert a1 == [a1[0]] + a1[1..] && a2 == [a2[0]] + a2[1..];
      }
    }
  }

  predicate IsAsciiDigit(c: char) {
    '0' <= c <= '9'
  }

  predicate AllDigits(s: string) {
    forall i :: 0 <= i < |s| ==> IsAsciiDigit(s[i])
  }

  function Pow10(n: nat): (r: nat)
    ensures r >= 1
  {
    if n == 0 then 1 else 10 * Pow10(n - 1)
  }

  /** The number a string of decimal digits denotes. */
  function DigitsValue(s: string): (v: nat)
    requires AllDigits(s)
    ensures v < Pow10(|s|)
  {
    if s == [] then 0
    else 10 * DigitsValue(s[..|s| - 1]) + (s[|s| - 1] as int - '0' as int)
  }

  /** For two digit strings of the same length, string order is number order. */
  lemma {:induction false} DigitsOrder(a: string, b: string)
    requires AllDigits(a) && AllDigits(b) && |a| == |b|
    ensures LexLess(a, b) <==> DigitsValue(a) < DigitsValue(b)
    ensures a == b <==> DigitsValue(a) == DigitsValue(b)
  {
    if a != [] {
      var n := |a| - 1;
      var a', b' := a[..n], b[..n];
      DigitsOrder(a', b');
      assert a == a' + [a[n]] && b == b' + [b[n]];
      LexLessConcat(a', [a[n]], b', [b[n]]);
      if a' == b' && a[n] == b[n] {
        assert a == b;
      }
    }
  }
}
