/** The supplier sign-up form (app/cadastro/page.tsx): the password strength
    meter, the CNPJ input mask and its validity test, the e-mail pattern, the
    per-field error map and the checks made before the sign-up request. */
module Cadastro {
  import opened Text
  import opened Lists

  // ---------------------------------------------------------------------
  // Password strength
  // ---------------------------------------------------------------------

  predicate NotAsciiAlnum(c: char) { !IsAsciiAlnum(c) }

  /** The four tests the meter scores, in the order it makes them: at least
      8 characters, `/[A-Z]/`, `/[0-9]/` and `/[^A-Za-z0-9]/`. */
  function StrengthRules(password: string): (rules: seq<bool>)
    ensures |rules| == 4
  {
    [ |password| >= 8,
      Contains(password, IsAsciiUpper),
      Contains(password, IsDigit),
      Contains(password, NotAsciiAlnum) ]
  }

  /** 25 points per satisfied test, added one test at a time. */
  method CalculatePasswordStrength(password: string) returns (strength: int)
    ensures strength == 25 * CountTrue(StrengthRules(password))
    ensures strength in {0, 25, 50, 75, 100}
    ensures strength == 100 <==>
      |password| >= 8 && Contains(password, IsAsciiUpper) &&
      Contains(password, IsDigit) && Contains(password, NotAsciiAlnum)
    ensures strength == 0 <==>
      |password| < 8 && !Contains(password, IsAsciiUpper) &&
      !Contains(password, IsDigit) && !Contains(password, NotAsciiAlnum)
  {
    var rules := StrengthRules(password);
    assert CountTrue(rules) ==
      (if rules[0] then 1 else 0) + (if rules[1] then 1 else 0) +
      (if rules[2] then 1 else 0) + (if rules[3] then 1 else 0) by {
      assert rules[1..][1..] == rules[2..] && rules[2..][1..] == rules[3..];
      assert rules[3..][1..] == [];
    }
    strength := 0;
    if |password| >= 8 {
      strength := strength + 25;
    }
    if Contains(password, IsAsciiUpper) {
      strength := strength + 25;
    }
    if Contains(password, IsDigit) {
      strength := strength + 25;
    }
    if Contains(password, NotAsciiAlnum) {
      strength := strength + 25;
    }
  }

  const StrengthLabels: seq<string> := ["Muito fraca", "Fraca", "Média", "Forte"]

  /** The label shown under the meter. */
  function GetStrengthText(strength: int): (text: string)
    ensures text in StrengthLabels
  {
    if strength < 25 then "Muito fraca"
    else if strength < 50 then "Fraca"
    else if strength < 75 then "Média"
    else "Forte"
  }

  /** For a score the meter computes, the label names how many tests passed:
      none, one, two, or three and more. */
  lemma StrengthTextOfRules(password: string)
    ensures var n := CountTrue(StrengthRules(password));
      GetStrengthText(25 * n) == StrengthLabels[if n < 3 then n else 3]
  {
  }

  // ---------------------------------------------------------------------
  // CNPJ mask
  // ---------------------------------------------------------------------

  /** `s` with `c` inserted at position `p`: what each of the mask's
      replacements does, since each keeps its captures and adds one
      separator. */
  function Insert(s: string, p: nat, c: char): (r: string)
    requires p <= |s|
    ensures |r| == |s| + 1
    ensures forall i :: 0 <= i < |r| ==>
      r[i] == if i < p then s[i] else if i == p then c else s[i - 1]
  {
    s[..p] + [c] + s[p..]
  }

  /** Inserting a separator leaves the digits as they were. */
  lemma InsertKeepsDigits(s: string, p: nat, c: char)
    requires p <= |s| && !IsDigit(c)
    ensures Digits(Insert(s, p, c)) == Digits(s)
  {
    assert Insert(s, p, c) == s[..p] + [c] + s[p..];
    FilterAppend(s[..p] + [c], s[p..], IsDigit);
    FilterAppend(s[..p], [c], IsDigit);
    FilterAppend(s[..p], s[p..], IsDigit);
    assert s[..p] + s[p..] == s;
  }

  /** `n` digits start at position `i`. */
  predicate DigitsAt(s: string, i: nat, n: nat)
  {
    i + n <= |s| && forall j :: i <= j < i + n ==> IsDigit(s[j])
  }

  /** `replace(/^(\d{2})(\d)/, "$1.$2")`. */
  function MaskStep1(s: string): (r: string)
    ensures Digits(r) == Digits(s)
    ensures |r| == |s| || |r| == |s| + 1
  {
    if DigitsAt(s, 0, 3) then InsertKeepsDigits(s, 2, '.'); Insert(s, 2, '.') else s
  }

  /** `replace(/^(\d{2})\.(\d{3})(\d)/, "$1.$2.$3")`. */
  function MaskStep2(s: string): (r: string)
    ensures Digits(r) == Digits(s)
    ensures |r| == |s| || |r| == |s| + 1
  {
    if DigitsAt(s, 0, 2) && |s| > 2 && s[2] == '.' && DigitsAt(s, 3, 4) then InsertKeepsDigits(s, 6, '.'); Insert(s, 6, '.')
    else s
  }

  /** `/\.(\d{3})(\d)/` matches at position `i`. */
  predicate DotRunAt(s: string, i: nat)
  {
    i < |s| && s[i] == '.' && DigitsAt(s, i + 1, 4)
  }

  /** The leftmost match of `/\.(\d{3})(\d)/` at or after `from`, or -1. */
  function FindDotRun(s: string, from: nat): (k: int)
    ensures k == -1 || (from <= k && DotRunAt(s, k))
    ensures forall m :: from <= m && (k == -1 || m < k) ==> !DotRunAt(s, m)
    decreases |s| - from
  {
    if from >= |s| then -1
    else if DotRunAt(s, from) then from
    else FindDotRun(s, from + 1)
  }

  /** `replace(/\.(\d{3})(\d)/, ".$1/$2")`: only the first match. */
  function MaskStep3(s: string): (r: string)
    ensures Digits(r) == Digits(s)
    ensures |r| == |s| || |r| == |s| + 1
  {
    var k := FindDotRun(s, 0);
    if k == -1 then s else InsertKeepsDigits(s, k + 4, '/'); Insert(s, k + 4, '/')
  }

  /** The leftmost run of five digits at or after `from`, or -1. */
  function FindDigitRun(s: string, from: nat): (k: int)
    ensures k == -1 || (from <= k && DigitsAt(s, k, 5))
    ensures forall m :: from <= m && (k == -1 || m < k) ==> !DigitsAt(s, m, 5)
    decreases |s| - from
  {
    if from >= |s| then -1
    else if DigitsAt(s, from, 5) then from
    else FindDigitRun(s, from + 1)
  }

  /** `replace(/(\d{4})(\d)/, "$1-$2")`: only the first match. */
  function MaskStep4(s: string): (r: string)
    ensures Digits(r) == Digits(s)
    ensures |r| == |s| || |r| == |s| + 1
  {
    var k := FindDigitRun(s, 0);
    if k == -1 then s else InsertKeepsDigits(s, k + 4, '-'); Insert(s, k + 4, '-')
  }

  /** The four replacements, in the order the form applies them. */
  function MaskSteps(s: string): (r: string)
    ensures Digits(r) == Digits(s)
    ensures |s| <= |r| <= |s| + 4
  {
    MaskStep4(MaskStep3(MaskStep2(MaskStep1(s))))
  }

  /** `formatCNPJ`: the digits of the input, masked, cut to 18 characters. */
  function FormatCnpj(value: string): (r: string)
    ensures |r| <= 18
  {
    var masked := MaskSteps(Digits(value));
    if |masked| <= 18 then masked else masked[..18]
  }

  /** The layout the mask is meant to produce from a string of digits:
      `DD.DDD.DDD/DDDD-DD`, filled from the left, with the last group taking
      every remaining digit. */
  function CnpjLayout(n: string): string
  {
    if |n| < 3 then n
    else if |n| < 6 then n[..2] + "." + n[2..]
    else if |n| < 9 then n[..2] + "." + n[2..5] + "." + n[5..]
    else if |n| < 13 then n[..2] + "." + n[2..5] + "." + n[5..8] + "/" + n[8..]
    else n[..2] + "." + n[2..5] + "." + n[5..8] + "/" + n[8..12] + "-" + n[12..]
  }

  predicate AllDigits(s: string) { forall i :: 0 <= i < |s| ==> IsDigit(s[i]) }

  lemma Step1OfDigits(n: string)
    requires AllDigits(n)
    ensures MaskStep1(n) == if |n| < 3 then n else n[..2] + "." + n[2..]
  {
  }

  /** Step 2 finds its pattern exactly when there are six digits or more. */
  lemma Step2OfDigits(n: string)
    requires AllDigits(n) && |n| >= 3
    ensures MaskStep2(n[..2] + "." + n[2..]) ==
      if |n| < 6 then n[..2] + "." + n[2..] else n[..2] + "." + n[2..5] + "." + n[5..]
  {
    var s := n[..2] + "." + n[2..];
    if |n| >= 6 {
      assert DigitsAt(s, 3, 4) by {
        forall j | 3 <= j < 7 ensures IsDigit(s[j]) {
          assert s[j] == n[j - 1];
        }
      }
    }
  }

  /** Step 3: with fewer than nine digits the first dot is followed by at most
      three digits or by the second dot, so nothing matches; otherwise the
      second dot is the first match. */
  lemma Step3OfDigits(n: string)
    requires AllDigits(n) && |n| >= 3
    ensures var s2 := if |n| < 6 then n[..2] + "." + n[2..] else n[..2] + "." + n[2..5] + "." + n[5..];
      MaskStep3(s2) ==
        if |n| < 9 then s2 else n[..2] + "." + n[2..5] + "." + n[5..8] + "/" + n[8..]
  {
    if |n| < 6 {
      var s := n[..2] + "." + n[2..];
      assert forall m :: 0 <= m < |s| && m != 2 ==> IsDigit(s[m]);
      assert FindDotRun(s, 0) == -1;
    } else {
      var s := n[..2] + "." + n[2..5] + "." + n[5..];
      assert s[2] == '.' && s[6] == '.';
      assert forall m :: 0 <= m < |s| && m != 2 && m != 6 ==> IsDigit(s[m]);
      assert !DotRunAt(s, 2);
      if |n| < 9 {
        assert !DotRunAt(s, 6);
        assert FindDotRun(s, 0) == -1;
      } else {
        assert DotRunAt(s, 6);
        assert FindDotRun(s, 0) == 6;
        assert Insert(s, 10, '/') == n[..2] + "." + n[2..5] + "." + n[5..8] + "/" + n[8..];
      }
    }
  }

  /** Step 4: the separators at positions 2, 6 and 10 break every earlier run,
      so the first five digits in a row are the ones after the slash. */
  lemma Step4OfDigits(n: string)
    requires AllDigits(n) && |n| >= 3
    ensures var s3 := if |n| < 6 then n[..2] + "." + n[2..]
        else if |n| < 9 then n[..2] + "." + n[2..5] + "." + n[5..]
        else n[..2] + "." + n[2..5] + "." + n[5..8] + "/" + n[8..];
      MaskStep4(s3) == CnpjLayout(n)
  {
    if |n| < 6 {
      var s := n[..2] + "." + n[2..];
      assert !IsDigit(s[2]);
      assert FindDigitRun(s, 0) == -1;
    } else if |n| < 9 {
      var s := n[..2] + "." + n[2..5] + "." + n[5..];
      assert !IsDigit(s[2]) && !IsDigit(s[6]);
      assert FindDigitRun(s, 0) == -1;
    } else {
      var s := n[..2] + "." + n[2..5] + "." + n[5..8] + "/" + n[8..];
      assert !IsDigit(s[2]) && !IsDigit(s[6]) && !IsDigit(s[10]);
      assert forall m :: 11 <= m < |s| ==> s[m] == n[m - 3];
      if |n| < 13 {
        assert FindDigitRun(s, 0) == -1;
      } else {
        assert DigitsAt(s, 11, 5);
        assert FindDigitRun(s, 0) == 11;
        assert Insert(s, 15, '-') ==
          n[..2] + "." + n[2..5] + "." + n[5..8] + "/" + n[8..12] + "-" + n[12..];
      }
    }
  }

  /** On a string of digits the four replacements build the intended layout. */
  lemma MaskStepsOfDigits(n: string)
    requires AllDigits(n)
    ensures MaskSteps(n) == CnpjLayout(n)
  {
    Step1OfDigits(n);
    if |n| >= 3 {
      Step2OfDigits(n);
      Step3OfDigits(n);
      Step4OfDigits(n);
    } else {
      assert FindDotRun(n, 0) == -1;
      assert FindDigitRun(n, 0) == -1;
    }
  }

  /** A layout has one separator per group started after the first. */
  lemma LayoutLength(n: string)
    ensures |CnpjLayout(n)| ==
      |n| + (if |n| >= 3 then 1 else 0) + (if |n| >= 6 then 1 else 0) +
      (if |n| >= 9 then 1 else 0) + (if |n| >= 13 then 1 else 0)
  {
  }

  /** Past 14 digits, the first 18 characters of the layout are the layout of
      the first 14 digits. */
  lemma LayoutCut(n: string)
    requires |n| > 14
    ensures CnpjLayout(n)[..18] == CnpjLayout(n[..14])
  {
    var m := n[..14];
    var head := n[..2] + "." + n[2..5] + "." + n[5..8] + "/" + n[8..12] + "-";
    assert head == m[..2] + "." + m[2..5] + "." + m[5..8] + "/" + m[8..12] + "-";
    assert CnpjLayout(n) == head + n[12..];
    assert CnpjLayout(m) == head + m[12..];
    assert |head| == 16;
    assert (head + n[12..])[..18] == head + n[12..14];
  }

  /** The formatted value is the layout of at most the first 14 digits. */
  lemma FormatCnpjLayout(value: string)
    ensures var n := Digits(value);
      FormatCnpj(value) == CnpjLayout(if |n| <= 14 then n else n[..14])
  {
    var n := Digits(value);
    MaskStepsOfDigits(n);
    LayoutLength(n);
    if |n| > 14 {
      LayoutCut(n);
    }
  }

  /** Fourteen digits or more give the 18-character `DD.DDD.DDD/DDDD-DD` of
      the first fourteen. */
  lemma FormatCnpjFourteenDigits(value: string)
    requires |Digits(value)| >= 14
    ensures var n := Digits(value)[..14]; var r := FormatCnpj(value);
      && |r| == 18
      && r == n[..2] + "." + n[2..5] + "." + n[5..8] + "/" + n[8..12] + "-" + n[12..]
  {
    FormatCnpjLayout(value);
    var n := Digits(value);
    assert n[..14] == if |n| <= 14 then n else n[..14];
  }

  lemma DigitsAfterSeparator(x: string, c: char, y: string)
    requires !IsDigit(c) && AllDigits(y)
    ensures Digits(x + [c] + y) == Digits(x) + y
  {
    FilterAppend(x + [c], y, IsDigit);
    FilterAppend(x, [c], IsDigit);
    FilterKeepsAll(y, IsDigit);
  }

  /** Removing the separators from a layout gives back its digits. */
  lemma DigitsOfLayout(n: string)
    requires AllDigits(n)
    ensures Digits(CnpjLayout(n)) == n
  {
    if |n| < 3 {
      FilterKeepsAll(n, IsDigit);
    } else {
      FilterKeepsAll(n[..2], IsDigit);
      var p1 := n[..2] + ".";
      if |n| < 6 {
        DigitsAfterSeparator(n[..2], '.', n[2..]);
        assert n == n[..2] + n[2..];
      } else {
        DigitsAfterSeparator(n[..2], '.', n[2..5]);
        var p2 := n[..2] + "." + n[2..5];
        if |n| < 9 {
          DigitsAfterSeparator(p2, '.', n[5..]);
          assert n == n[..2] + n[2..5] + n[5..];
        } else {
          DigitsAfterSeparator(p2, '.', n[5..8]);
          var p3 := p2 + "." + n[5..8];
          if |n| < 13 {
            DigitsAfterSeparator(p3, '/', n[8..]);
            assert n == n[..2] + n[2..5] + n[5..8] + n[8..];
          } else {
            DigitsAfterSeparator(p3, '/', n[8..12]);
            var p4 := p3 + "/" + n[8..12];
            DigitsAfterSeparator(p4, '-', n[12..]);
            assert n == n[..2] + n[2..5] + n[5..8] + n[8..12] + n[12..];
          }
        }
      }
    }
  }

  /** The formatted value holds the input's digits, cut to 14: for an input
      of at most 14 digits, unmasking the output gives back the input's
      digits. */
  lemma FormatCnpjKeepsDigits(value: string)
    ensures var n := Digits(value);
      Digits(FormatCnpj(value)) == if |n| <= 14 then n else n[..14]
  {
    var n := Digits(value);
    FormatCnpjLayout(value);
    DigitsOfLayout(if |n| <= 14 then n else n[..14]);
  }

  /** Masking an already masked value changes nothing, so re-formatting on
      every keystroke is stable. */
  lemma FormatCnpjIdempotent(value: string)
    ensures FormatCnpj(FormatCnpj(value)) == FormatCnpj(value)
  {
    var n := Digits(value);
    var m := if |n| <= 14 then n else n[..14];
    FormatCnpjKeepsDigits(value);
    FormatCnpjLayout(value);
    FormatCnpjLayout(FormatCnpj(value));
    assert |m| <= 14;
  }

  /** `validateCNPJ`: exactly 14 digits once everything else is removed. */
  function ValidateCnpj(cnpj: string): (ok: bool)
    ensures ok ==> |cnpj| >= 14
  {
    |Digits(cnpj)| == 14
  }

  /** A masked value is valid exactly when the input had 14 digits or more. */
  lemma ValidateFormattedCnpj(value: string)
    ensures ValidateCnpj(FormatCnpj(value)) <==> |Digits(value)| >= 14
  {
    FormatCnpjKeepsDigits(value);
  }

  // ---------------------------------------------------------------------
  // E-mail pattern
  // ---------------------------------------------------------------------

  /** The class `[^\s@]`. */
  predicate EmailChar(c: char) { !IsJsSpace(c) && c != '@' }

  predicate AllEmailChars(s: string) { forall i :: 0 <= i < |s| ==> EmailChar(s[i]) }

  /** What `/^[^\s@]+@[^\s@]+\.[^\s@]+$/` matching means: an `@` at `at` and
      a `.` at `dot` cut the text into three non-empty runs of `[^\s@]`. */
  ghost predicate MatchesEmailPattern(e: string)
  {
    exists at, dot :: 0 < at && at + 1 < dot && dot + 1 < |e| && e[at] == '@' && e[dot] == '.' &&
      AllEmailChars(e[..at]) && AllEmailChars(e[at + 1..dot]) && AllEmailChars(e[dot + 1..])
  }

  /** A dot with at least one character on each side. */
  predicate HasInteriorDot(d: string)
  {
    exists p :: 0 < p < |d| - 1 && d[p] == '.'
  }

  /** `validateEmail`: exactly one `@`, no white space, something before the
      `@`, and a dot strictly inside the domain. */
  function ValidateEmail(email: string): (ok: bool)
    ensures ok ==> '@' in email && |email| >= 5
  {
    var at := LastIndexOf(email, '@');
    && CountChar(email, '@') == 1
    && (forall i :: 0 <= i < |email| ==> !IsJsSpace(email[i]))
    && at > 0
    && HasInteriorDot(email[at + 1..])
  }

  lemma EmailPatternCut(e: string, at: nat)
    requires at < |e| && e[at] == '@' && AllEmailChars(e[..at]) && AllEmailChars(e[at + 1..])
    ensures CountChar(e, '@') == 1 && LastIndexOf(e, '@') == at
  {
    assert e == e[..at] + ['@'] + e[at + 1..];
    CountCharAppend(e[..at] + ['@'], e[at + 1..], '@');
    CountCharAppend(e[..at], ['@'], '@');
    assert forall i :: at < i < |e| ==> e[i] == e[at + 1..][i - at - 1];
  }

  /** The characters on both sides of the domain's dot are the domain's. */
  lemma DomainChars(e: string, at: nat, dot: nat)
    requires at + 1 < dot < |e| && AllEmailChars(e[at + 1..dot]) && AllEmailChars(e[dot + 1..])
    requires e[dot] == '.'
    ensures AllEmailChars(e[at + 1..])
  {
    forall i | at + 1 <= i < |e| ensures EmailChar(e[i]) {
      if i < dot {
        assert e[i] == e[at + 1..dot][i - at - 1];
      } else if i > dot {
        assert e[i] == e[dot + 1..][i - dot - 1];
      }
    }
  }

  /** Pattern characters around the `@` leave no white space. */
  lemma NoSpaceAroundAt(e: string, at: nat)
    requires at < |e| && e[at] == '@' && AllEmailChars(e[..at]) && AllEmailChars(e[at + 1..])
    ensures forall i :: 0 <= i < |e| ==> !IsJsSpace(e[i])
  {
    forall i | 0 <= i < |e| ensures !IsJsSpace(e[i]) {
      if i < at {
        assert e[i] == e[..at][i];
      } else if i > at {
        assert e[i] == e[at + 1..][i - at - 1];
      }
    }
  }

  /** Every string the pattern matches is accepted. */
  lemma PatternIsValidEmail(e: string)
    requires MatchesEmailPattern(e)
    ensures ValidateEmail(e)
  {
    var at, dot :| 0 < at && at + 1 < dot && dot + 1 < |e| && e[at] == '@' && e[dot] == '.' &&
      AllEmailChars(e[..at]) && AllEmailChars(e[at + 1..dot]) && AllEmailChars(e[dot + 1..]);
    DomainChars(e, at, dot);
    EmailPatternCut(e, at);
    NoSpaceAroundAt(e, at);
    var d := e[at + 1..];
    assert d[dot - at - 1] == '.';
  }

  /** Every accepted string is matched by the pattern. */
  lemma ValidEmailIsPattern(e: string)
    requires ValidateEmail(e)
    ensures MatchesEmailPattern(e)
  {
    var at := LastIndexOf(e, '@');
    var d := e[at + 1..];
    var p :| 0 < p < |d| - 1 && d[p] == '.';
    var dot := at + 1 + p;
    assert e[at + 1..dot] == d[..p] && e[dot + 1..] == d[p + 1..];
    assert AllEmailChars(e[..at]) && AllEmailChars(d) by {
      OnlyOccurrence(e, at);
      forall i | 0 <= i < at ensures EmailChar(e[..at][i]) {
        assert e[..at][i] == e[i];
      }
      forall i | 0 <= i < |d| ensures EmailChar(d[i]) {
        assert d[i] == e[at + 1 + i];
      }
    }
    var head, tail := d[..p], d[p + 1..];
    assert AllEmailChars(head) && AllEmailChars(tail) by {
      forall i | 0 <= i < p ensures EmailChar(head[i]) {
        assert head[i] == d[i];
      }
      forall i | 0 <= i < |tail| ensures EmailChar(tail[i]) {
        assert tail[i] == d[p + 1 + i];
      }
    }
    assert e[dot] == '.';
  }

  /** `validateEmail` accepts exactly the strings the pattern matches. */
  lemma ValidateEmailIsPattern(e: string)
    ensures ValidateEmail(e) <==> MatchesEmailPattern(e)
  {
    if MatchesEmailPattern(e) {
      PatternIsValidEmail(e);
    }
    if ValidateEmail(e) {
      ValidEmailIsPattern(e);
    }
  }

  // ---------------------------------------------------------------------
  // Error map and submit order
  // ---------------------------------------------------------------------

  /** `clearError`: a copy of the error map without `field`. */
  method ClearError(prev: map<string, string>, field: string) returns (newErrors: map<string, string>)
    ensures newErrors.Keys == prev.Keys - {field}
    ensures forall k :: k in newErrors ==> newErrors[k] == prev[k]
  {
    newErrors := prev;
    newErrors := newErrors - {field};
  }

  datatype CadastroData = CadastroData(email: string, cnpj: string, nome: string, password: string, acceptTerms: bool)

  /** The body of the sign-up request; the password travels as `senha`. */
  datatype CadastroRequest = CadastroRequest(email: string, cnpj: string, nome: string, senha: string, acceptTerms: bool)

  datatype SubmitOutcome =
    | MissingFields      // "Todos os campos são obrigatórios."
    | InvalidCnpj        // "CNPJ inválido."
    | TermsNotAccepted   // "Você deve aceitar os termos e condições."
    | Send(request: CadastroRequest)

  /** The checks of `handleSubmit`, each returning before the request. */
  function SubmitCadastro(data: CadastroData): (r: SubmitOutcome)
    ensures r == MissingFields <==>
      data.email == "" || data.cnpj == "" || data.nome == "" || data.password == ""
    ensures r == InvalidCnpj <==>
      data.email != "" && data.cnpj != "" && data.nome != "" && data.password != "" && !ValidateCnpj(data.cnpj)
    ensures r == TermsNotAccepted <==>
      data.email != "" && data.cnpj != "" && data.nome != "" && data.password != "" &&
      ValidateCnpj(data.cnpj) && !data.acceptTerms
    ensures r.Send? <==>
      data.email != "" && data.cnpj != "" && data.nome != "" && data.password != "" &&
      ValidateCnpj(data.cnpj) && data.acceptTerms
    ensures r.Send? ==>
      r.request == CadastroRequest(data.email, data.cnpj, data.nome, data.password, data.acceptTerms)
  {
    if data.email == "" || data.cnpj == "" || data.nome == "" || data.password == "" then MissingFields
    else if !ValidateCnpj(data.cnpj) then InvalidCnpj
    else if !data.acceptTerms then TermsNotAccepted
    else Send(CadastroRequest(data.email, data.cnpj, data.nome, data.password, data.acceptTerms))
  }

  /** With the other fields filled in and the terms accepted, a CNPJ typed
      through the mask is sent exactly when it had 14 digits or more. */
  lemma SubmitFormattedCnpj(email: string, value: string, nome: string, password: string)
    requires email != "" && nome != "" && password != ""
    ensures SubmitCadastro(CadastroData(email, FormatCnpj(value), nome, password, true)).Send?
      <==> |Digits(value)| >= 14
  {
    ValidateFormattedCnpj(value);
    FormatCnpjKeepsDigits(value);
    if FormatCnpj(value) == "" {
      assert Digits(FormatCnpj(value)) == "";
    }
  }
}
