/** JavaScript string primitives the portal relies on: `String.prototype.trim`,
    `trimEnd`, the regular-expression classes `\s`, `\d`, `[A-Z]`, `[a-z]`, and
    global character filters such as `replace(/\D/g, "")`. */
module Text {

  /** ECMAScript WhiteSpace and LineTerminator code points: the characters that
      `trim` removes and that the regular-expression class `\s` matches. */
  predicate IsJsSpace(c: char) {
    || c == '\t' || c == '\n' || c == '\U{000B}' || c == '\U{000C}' || c == '\r'
    || c == ' ' || c == '\U{00A0}' || c == '\U{1680}'
    || ('\U{2000}' <= c <= '\U{200A}')
    || c == '\U{2028}' || c == '\U{2029}' || c == '\U{202F}' || c == '\U{205F}'
    || c == '\U{3000}' || c == '\U{FEFF}'
  }

  /** `\d` in a JavaScript regular expression without the `u` flag: ASCII digits only. */
  predicate IsDigit(c: char) { '0' <= c <= '9' }

  predicate IsAsciiUpper(c: char) { 'A' <= c <= 'Z' }

  predicate IsAsciiLower(c: char) { 'a' <= c <= 'z' }

  predicate IsAsciiAlnum(c: char) { IsDigit(c) || IsAsciiUpper(c) || IsAsciiLower(c) }

  predicate AllSpace(s: string) { forall i :: 0 <= i < |s| ==> IsJsSpace(s[i]) }

  /** `trimStart`: drops the leading white space and nothing else. */
  function TrimStart(s: string): (r: string)
    ensures |r| <= |s| && r == s[|s| - |r|..]
    ensures forall i :: 0 <= i < |s| - |r| ==> IsJsSpace(s[i])
    ensures r != [] ==> !IsJsSpace(r[0])
  {
    if s != [] && IsJsSpace(s[0]) then TrimStart(s[1..]) else s
  }

  /** `trimEnd`: drops the trailing white space and nothing else. */
  function TrimEnd(s: string): (r: string)
    ensures |r| <= |s| && r == s[..|r|]
    ensures forall i :: |r| <= i < |s| ==> IsJsSpace(s[i])
    ensures r != [] ==> !IsJsSpace(r[|r| - 1])
  {
    if s != [] && IsJsSpace(s[|s| - 1]) then TrimEnd(s[..|s| - 1]) else s
  }

  /** `trim`: the longest infix of `s` that neither starts nor ends with white space. */
  function Trim(s: string): (r: string)
  {
    TrimEnd(TrimStart(s))
  }

  lemma TrimSlice(s: string)
    ensures var lead := |s| - |TrimStart(s)|;
      lead + |Trim(s)| <= |s| && Trim(s) == s[lead..lead + |Trim(s)|]
  {
    var t := TrimStart(s);
    var lead := |s| - |t|;
    var r := TrimEnd(t);
    assert t == s[lead..];
    assert r == t[..|r|];
    DropTake(s, lead, |r|);
  }

  /** A prefix of a suffix is a slice. */
  lemma DropTake<T>(s: seq<T>, i: nat, n: nat)
    requires i + n <= |s|
    ensures s[i..][..n] == s[i..i + n]
  {
  }

  lemma TrimTail(s: string)
    ensures var lead := |s| - |TrimStart(s)|;
      forall i :: lead + |Trim(s)| <= i < |s| ==> IsJsSpace(s[i])
  {
    var t := TrimStart(s);
    var lead := |s| - |t|;
    var r := TrimEnd(t);
    forall i | lead + |r| <= i < |s| ensures IsJsSpace(s[i]) {
      assert s[i] == t[i - lead];
    }
  }

  /** What `trim` promises: the result is a contiguous piece of the input, only
      white space is cut away on either side, and the result starts and ends with
      a non-space character. */
  lemma TrimIsInfix(s: string)
    ensures var lead := |s| - |TrimStart(s)|;
      && lead + |Trim(s)| <= |s| && Trim(s) == s[lead..lead + |Trim(s)|]
      && (forall i :: 0 <= i < lead ==> IsJsSpace(s[i]))
      && (forall i :: lead + |Trim(s)| <= i < |s| ==> IsJsSpace(s[i]))
    ensures Trim(s) != [] ==> !IsJsSpace(Trim(s)[0]) && !IsJsSpace(Trim(s)[|Trim(s)| - 1])
  {
    TrimSlice(s);
    TrimTail(s);
  }

  lemma {:induction false} TrimStartAllSpace(s: string)
    requires AllSpace(s)
    ensures TrimStart(s) == []
  {
    if s != [] {
      TrimStartAllSpace(s[1..]);
    }
  }

  /** A string trims to "" exactly when it is all white space. */
  lemma TrimEmptyIffAllSpace(s: string)
    ensures Trim(s) == [] <==> AllSpace(s)
  {
    var t := TrimStart(s);
    if Trim(s) == [] {
      assert t == [];
    }
    if AllSpace(s) {
      TrimStartAllSpace(s);
    }
  }

  lemma TrimStartOfTrimmed(s: string)
    requires s == [] || !IsJsSpace(s[0])
    ensures TrimStart(s) == s
  {
  }

  /** A string that neither starts nor ends with white space is its own trim. */
  lemma TrimOfTrimmed(s: string)
    requires s == [] || (!IsJsSpace(s[0]) && !IsJsSpace(s[|s| - 1]))
    ensures Trim(s) == s
  {
    TrimStartOfTrimmed(s);
  }

  /** Trimming twice changes nothing more than trimming once. */
  lemma TrimIdempotent(s: string)
    ensures Trim(Trim(s)) == Trim(s)
  {
    var r := Trim(s);
    TrimIsInfix(s);
    TrimStartOfTrimmed(r);
    assert TrimEnd(r) == r;
  }

  /** `toUpperCase` restricted to ASCII letters; every other character is kept. */
  function UpperAscii(c: char): char {
    if IsAsciiLower(c) then (c as int - 32) as char else c
  }

  /** A text with no lower-case ASCII letter is its own upper-case form. */
  lemma UpperOfUpper(s: string)
    requires forall i :: 0 <= i < |s| ==> !IsAsciiLower(s[i])
    ensures ToUpperAscii(s) == s
  {
  }

  function LowerAscii(c: char): char {
    if IsAsciiUpper(c) then (c as int + 32) as char else c
  }

  function ToUpperAscii(s: string): (r: string)
    ensures |r| == |s| && forall i :: 0 <= i < |s| ==> r[i] == UpperAscii(s[i])
  {
    seq(|s|, i requires 0 <= i < |s| => UpperAscii(s[i]))
  }

  function ToLowerAscii(s: string): (r: string)
    ensures |r| == |s| && forall i :: 0 <= i < |s| ==> r[i] == LowerAscii(s[i])
  {
    seq(|s|, i requires 0 <= i < |s| => LowerAscii(s[i]))
  }

  /** A global `replace` whose pattern is a character class and whose replacement
      is "": keeps, in order, the characters satisfying `keep`. */
  function Filter(s: string, keep: char -> bool): (r: string)
    ensures |r| <= |s|
    ensures forall i :: 0 <= i < |r| ==> keep(r[i])
  {
    if s == [] then [] else (if keep(s[0]) then [s[0]] else []) + Filter(s[1..], keep)
  }

  lemma {:induction false} FilterAppend(a: string, b: string, keep: char -> bool)
    ensures Filter(a + b, keep) == Filter(a, keep) + Filter(b, keep)
  {
    if a == [] {
      assert a + b == b;
    } else {
      assert (a + b)[1..] == a[1..] + b;
      FilterAppend(a[1..], b, keep);
    }
  }

  /** Filtering with a condition every character already meets returns the input. */
  lemma {:induction false} FilterKeepsAll(s: string, keep: char -> bool)
    requires forall i :: 0 <= i < |s| ==> keep(s[i])
    ensures Filter(s, keep) == s
  {
    if s != [] {
      FilterKeepsAll(s[1..], keep);
    }
  }

  /** `replace(/\D/g, "")`. */
  function Digits(s: string): (r: string)
    ensures forall i :: 0 <= i < |r| ==> IsDigit(r[i])
  {
    Filter(s, IsDigit)
  }

  /** `replace(/x/g, "")` for a single character x. */
  function RemoveChar(s: string, x: char): (r: string)
    ensures |r| <= |s|
    ensures x !in r
  {
    if s == [] then [] else (if s[0] != x then [s[0]] else []) + RemoveChar(s[1..], x)
  }

  lemma {:induction false} RemoveCharAppend(a: string, b: string, x: char)
    ensures RemoveChar(a + b, x) == RemoveChar(a, x) + RemoveChar(b, x)
  {
    if a == [] {
      assert a + b == b;
    } else {
      var head := if a[0] != x then [a[0]] else [];
      assert (a + b)[1..] == a[1..] + b;
      assert RemoveChar(a + b, x) == head + RemoveChar(a[1..] + b, x);
      RemoveCharAppend(a[1..], b, x);
      assert head + (RemoveChar(a[1..], x) + RemoveChar(b, x))
        == (head + RemoveChar(a[1..], x)) + RemoveChar(b, x);
    }
  }

  lemma {:induction false} RemoveCharAbsent(s: string, x: char)
    requires x !in s
    ensures RemoveChar(s, x) == s
  {
    if s != [] {
      RemoveCharAbsent(s[1..], x);
    }
  }

  /** `replace(/a/g, b)` for single characters a and b. */
  function ReplaceChar(s: string, a: char, b: char): (r: string)
    ensures |r| == |s|
    ensures forall i :: 0 <= i < |s| ==> r[i] == if s[i] == a then b else s[i]
  {
    seq(|s|, i requires 0 <= i < |s| => if s[i] == a then b else s[i])
  }

  /** `lastIndexOf` for one character: -1 when absent. */
  function LastIndexOf(s: string, x: char): (k: int)
    ensures -1 <= k < |s|
    ensures k == -1 <==> x !in s
    ensures k >= 0 ==> s[k] == x && forall i :: k < i < |s| ==> s[i] != x
  {
    if s == [] then -1
    else if s[|s| - 1] == x then |s| - 1
    else LastIndexOf(s[..|s| - 1], x)
  }

  /** Number of occurrences of `x` in `s`. */
  function CountChar(s: string, x: char): (n: nat)
    ensures n <= |s|
    ensures n == 0 <==> x !in s
  {
    if s == [] then 0 else (if s[0] == x then 1 else 0) + CountChar(s[1..], x)
  }

  /** `split(sep)` for a one-character separator: the pieces between the
      separators, in order; there is always at least one piece. */
  function Split(s: string, sep: char): (parts: seq<string>)
    ensures |parts| >= 1
  {
    if s == [] then [[]]
    else
      var init := Split(s[..|s| - 1], sep);
      if s[|s| - 1] == sep then init + [[]]
      else init[..|init| - 1] + [init[|init| - 1] + [s[|s| - 1]]]
  }

  /** `join("")`: the pieces concatenated. */
  function Join(parts: seq<string>): (r: string)
  {
    if parts == [] then [] else parts[0] + Join(parts[1..])
  }

  lemma {:induction false} JoinSnoc(parts: seq<string>, last: string)
    ensures Join(parts + [last]) == Join(parts) + last
  {
    if parts != [] {
      assert (parts + [last])[1..] == parts[1..] + [last];
      JoinSnoc(parts[1..], last);
    }
  }

  /** Splitting on a character and joining the pieces with "" removes exactly
      every occurrence of that character. */
  lemma {:induction false} JoinSplit(s: string, sep: char)
    ensures Join(Split(s, sep)) == RemoveChar(s, sep)
  {
    if s != [] {
      var s', c := s[..|s| - 1], s[|s| - 1];
      assert s == s' + [c];
      var init := Split(s', sep);
      JoinSplit(s', sep);
      RemoveCharAppend(s', [c], sep);
      if c == sep {
        JoinSnoc(init, []);
      } else {
        var front := init[..|init| - 1];
        assert init == front + [init[|init| - 1]];
        JoinSnoc(front, init[|init| - 1]);
        JoinSnoc(front, init[|init| - 1] + [c]);
      }
    }
  }

  /** Split of a text extended by one character, one step of its definition. */
  lemma SplitSnoc(s: string, c: char, sep: char)
    ensures var init := Split(s, sep);
      Split(s + [c], sep) ==
        if c == sep then init + [[]] else init[..|init| - 1] + [init[|init| - 1] + [c]]
  {
    SnocParts(s, c);
  }

  /** Appending a separator and a separator-free tail adds exactly one piece. */
  lemma {:induction false} SplitAppendPiece(a: string, sep: char, b: string)
    requires sep !in b
    ensures Split(a + [sep] + b, sep) == Split(a, sep) + [b]
  {
    if b != [] {
      var b', c := b[..|b| - 1], b[|b| - 1];
      assert a + [sep] + b == (a + [sep] + b') + [c];
      SplitSnoc(a + [sep] + b', c, sep);
      SplitAppendPiece(a, sep, b');
      SnocParts(Split(a, sep), b');
      assert b' + [c] == b;
    } else {
      assert a + [sep] + b == a + [sep];
      SplitSnoc(a, sep, sep);
    }
  }

  /** The front and the last element of a sequence extended by one. */
  lemma SnocParts<T>(xs: seq<T>, y: T)
    ensures (xs + [y])[..|xs|] == xs && (xs + [y])[|xs|] == y
  {
  }

  lemma {:induction false} SplitNoSeparator(s: string, sep: char)
    requires sep !in s
    ensures Split(s, sep) == [s]
  {
    if s != [] {
      assert s[..|s| - 1] + [s[|s| - 1]] == s;
      SplitNoSeparator(s[..|s| - 1], sep);
    }
  }

  /** The piece after the last separator, and the pieces before it. */
  lemma SplitAtLast(s: string, sep: char)
    ensures var k := LastIndexOf(s, sep); var parts := Split(s, sep);
      && (k == -1 ==> parts == [s])
      && (k >= 0 ==> parts == Split(s[..k], sep) + [s[k + 1..]])
  {
    var k := LastIndexOf(s, sep);
    if k == -1 {
      SplitNoSeparator(s, sep);
    } else {
      assert s == s[..k] + [sep] + s[k + 1..];
      SplitAppendPiece(s[..k], sep, s[k + 1..]);
    }
  }

  /** A character that occurs once occurs nowhere else. */
  lemma OnlyOccurrence(s: string, k: nat)
    requires k < |s| && CountChar(s, s[k]) == 1
    ensures s[k] !in s[..k] && s[k] !in s[k + 1..]
  {
    var a, b := s[..k], s[k + 1..];
    assert CountChar(a, s[k]) + 1 + CountChar(b, s[k]) == 1 by {
      assert s == a + [s[k]] + b;
      CountCharAppend(a + [s[k]], b, s[k]);
      CountCharAppend(a, [s[k]], s[k]);
    }
  }

  lemma {:induction false} CountCharAppend(a: string, b: string, x: char)
    ensures CountChar(a + b, x) == CountChar(a, x) + CountChar(b, x)
  {
    if a == [] {
      assert a + b == b;
    } else {
      var head := if a[0] == x then 1 else 0;
      assert (a + b)[1..] == a[1..] + b;
      assert CountChar(a + b, x) == head + CountChar(a[1..] + b, x);
      CountCharAppend(a[1..], b, x);
    }
  }

  /** `.test` of a one-character class: some character of `s` is in the class. */
  predicate Contains(s: string, inClass: char -> bool)
  {
    exists i :: 0 <= i < |s| && inClass(s[i])
  }
}
