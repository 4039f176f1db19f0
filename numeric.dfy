/** The decimal-separator normalisation that the supplier portal
    (`sanitizeNumericInput`) and the admin dashboard (`normalizeNota`) apply to a
    score typed either in the Brazilian style ("1.234,5") or in the English
    style ("1,234.5") before handing it to `Number`. */
module NumberText {
  import opened Text
  import opened Wrappers

  /** A JavaScript value of type `unknown` as the normalisers inspect it: a
      finite number, a number that is NaN or infinite, a string, or anything else. */
  datatype JsValue = JsNumber(x: real) | JsNonFinite | JsString(s: string) | JsOther

  /** `Number(text)` followed by `Number.isFinite`: the value when it is finite,
      None when the text denotes NaN or an infinity. Float parsing is the
      runtime's and enters the model as this function. */
  type NumberParser = string -> Option<real>

  /** The characters kept by `replace(/[^\d,.-]/g, "")`. */
  predicate IsNumericSymbol(c: char) { IsDigit(c) || c == ',' || c == '.' || c == '-' }

  predicate IsDigitOrSign(c: char) { IsDigit(c) || c == '-' }

  predicate IsSeparator(c: char) { c == ',' || c == '.' }

  /** `replace(/[^\d,.-]/g, "")`: digits, commas, dots and minus signs, in order. */
  function NumericSymbols(s: string): (r: string)
    ensures forall i :: 0 <= i < |r| ==> IsNumericSymbol(r[i])
  {
    Filter(s, IsNumericSymbol)
  }

  /** `replace(/\./g, "").replace(/,/g, ".")`: dots group thousands, a comma is
      the decimal mark. */
  function CommaDecimal(sym: string): string {
    ReplaceChar(RemoveChar(sym, '.'), ',', '.')
  }

  /** The dot-only branch: `split(".")`, `pop()` the last piece as the decimals,
      `join("")` the others and put one dot between the two. */
  function LastDotDecimal(sym: string): string {
    var parts := Split(sym, '.');
    Join(parts[..|parts| - 1]) + "." + parts[|parts| - 1]
  }

  /** The text handed to `Number` once only numeric symbols are left: whichever
      separator occurs last is taken as the decimal mark. */
  function NormalizedSeparators(sym: string): (r: string)
    ensures ',' !in r
  {
    var lastComma := LastIndexOf(sym, ',');
    var lastDot := LastIndexOf(sym, '.');
    if lastComma > -1 && lastDot > -1 then
      (if lastComma > lastDot then CommaDecimal(sym) else RemoveChar(sym, ','))
    else if lastComma > -1 then CommaDecimal(sym)
    else if lastDot > -1 then DotOnlyHasNoComma(sym); LastDotDecimal(sym)
    else sym
  }

  /** The position of the last separator of either kind, -1 when there is none. */
  function LastSeparator(sym: string): (k: int)
    ensures -1 <= k < |sym|
  {
    var lastComma := LastIndexOf(sym, ',');
    var lastDot := LastIndexOf(sym, '.');
    if lastComma > lastDot then lastComma else lastDot
  }

  lemma ReplaceCharAppend(x: string, y: string, a: char, b: char)
    ensures ReplaceChar(x + y, a, b) == ReplaceChar(x, a, b) + ReplaceChar(y, a, b)
  {
  }

  /** Within a text of numeric symbols free of `x`, deleting the other separator
      leaves exactly the digits and signs. */
  lemma {:induction false} RemoveOtherSeparator(a: string, x: char, y: char)
    requires forall i :: 0 <= i < |a| ==> IsNumericSymbol(a[i])
    requires {x, y} == {',', '.'} && x !in a
    ensures RemoveChar(a, y) == Filter(a, IsDigitOrSign)
  {
    if a != [] {
      RemoveOtherSeparator(a[1..], x, y);
    }
  }

  /** The dot-only branch keeps the digits after the last dot as decimals and
      drops every earlier dot. */
  lemma LastDotDecimalShape(sym: string)
    requires '.' in sym
    ensures var k := LastIndexOf(sym, '.');
      LastDotDecimal(sym) == RemoveChar(sym[..k], '.') + "." + sym[k + 1..]
  {
    var k := LastIndexOf(sym, '.');
    SplitAtLast(sym, '.');
    var parts := Split(sym, '.');
    assert parts[..|parts| - 1] == Split(sym[..k], '.');
    JoinSplit(sym[..k], '.');
  }

  /** The rules on the sign-and-digit content: separators are only removed or
      turned into dots, so the digits and minus signs survive in their order, and
      no comma is left for `Number` to choke on. */
  lemma NormalizedKeepsDigits(sym: string)
    ensures ',' !in NormalizedSeparators(sym)
    ensures Filter(NormalizedSeparators(sym), IsDigitOrSign) == Filter(sym, IsDigitOrSign)
  {
    var lastComma := LastIndexOf(sym, ',');
    var lastDot := LastIndexOf(sym, '.');
    if lastComma > -1 && (lastDot == -1 || lastComma > lastDot) {
      assert NormalizedSeparators(sym) == CommaDecimal(sym);
      RemoveKeepsDigits(sym, '.');
      ReplaceKeepsDigits(RemoveChar(sym, '.'));
    } else if lastComma > -1 {
      assert NormalizedSeparators(sym) == RemoveChar(sym, ',');
      RemoveKeepsDigits(sym, ',');
    } else if lastDot > -1 {
      assert NormalizedSeparators(sym) == LastDotDecimal(sym);
      DotOnlyKeepsDigits(sym);
      DotOnlyHasNoComma(sym);
    }
  }

  lemma DotOnlyKeepsDigits(sym: string)
    requires '.' in sym && ',' !in sym
    ensures Filter(LastDotDecimal(sym), IsDigitOrSign) == Filter(sym, IsDigitOrSign)
  {
    var k := LastIndexOf(sym, '.');
    LastDotDecimalShape(sym);
    var a, b := sym[..k], sym[k + 1..];
    CutAtDot(sym, k);
    PieceFilter(RemoveChar(a, '.'), b);
    PieceFilter(a, b);
    RemoveKeepsDigits(a, '.');
  }
  lemma DotOnlyHasNoComma(sym: string)
    requires '.' in sym && ',' !in sym
    ensures ',' !in LastDotDecimal(sym)
  {
    var k := LastIndexOf(sym, '.');
    LastDotDecimalShape(sym);
    var a, b := sym[..k], sym[k + 1..];
    assert ',' !in a && ',' !in b by {
      CutAtDot(sym, k);
    }
    NoCommaInRemove(a);
  }
  lemma CutAtDot(sym: string, k: nat)
    requires k < |sym| && sym[k] == '.'
    ensures sym == sym[..k] + "." + sym[k + 1..]
  {}
  lemma PieceFilter(a: string, b: string)
    ensures Filter(a + "." + b, IsDigitOrSign) == Filter(a, IsDigitOrSign) + Filter(b, IsDigitOrSign)
  {
    FilterAppend(a + ".", b, IsDigitOrSign);
    FilterAppend(a, ".", IsDigitOrSign);
  }
  lemma {:induction false} NoCommaInRemove(a: string)
    requires ',' !in a
    ensures ',' !in RemoveChar(a, '.')
  {
    if a != [] {
      NoCommaInRemove(a[1..]);
    }
  }

  lemma {:induction false} RemoveKeepsDigits(s: string, x: char)
    requires IsSeparator(x)
    ensures Filter(RemoveChar(s, x), IsDigitOrSign) == Filter(s, IsDigitOrSign)
  {
    if s != [] {
      RemoveKeepsDigits(s[1..], x);
      var head := if s[0] != x then [s[0]] else [];
      FilterAppend(head, RemoveChar(s[1..], x), IsDigitOrSign);
    }
  }

  lemma {:induction false} ReplaceKeepsDigits(s: string)
    ensures Filter(ReplaceChar(s, ',', '.'), IsDigitOrSign) == Filter(s, IsDigitOrSign)
  {
    if s != [] {
      ReplaceKeepsDigits(s[1..]);
      ReplaceCharAppend([s[0]], s[1..], ',', '.');
      assert s == [s[0]] + s[1..];
      FilterAppend(ReplaceChar([s[0]], ',', '.'), ReplaceChar(s[1..], ',', '.'), IsDigitOrSign);
    }
  }

  /** Where the decimal mark lands. When the separator that occurs last occurs
      only once (or when the text has no comma at all, where every earlier dot is
      a thousands dot), the normalised text is the digits and signs before it,
      one dot, and the digits after it. */
  lemma DecimalMarkIsLastSeparator(sym: string)
    requires forall i :: 0 <= i < |sym| ==> IsNumericSymbol(sym[i])
    requires LastSeparator(sym) >= 0
    requires var k := LastSeparator(sym); CountChar(sym, sym[k]) == 1 || ',' !in sym
    ensures var k := LastSeparator(sym);
      NormalizedSeparators(sym) == Filter(sym[..k], IsDigitOrSign) + "." + sym[k + 1..]
  {
    if sym[LastSeparator(sym)] == ',' {
      CommaIsDecimalMark(sym);
    } else {
      DotIsDecimalMark(sym);
    }
  }

  lemma CommaIsDecimalMark(sym: string)
    requires forall i :: 0 <= i < |sym| ==> IsNumericSymbol(sym[i])
    requires LastSeparator(sym) >= 0 && sym[LastSeparator(sym)] == ','
    requires CountChar(sym, ',') == 1
    ensures var k := LastSeparator(sym);
      NormalizedSeparators(sym) == Filter(sym[..k], IsDigitOrSign) + "." + sym[k + 1..]
  {
    var k := LastSeparator(sym);
    CommaIsLast(sym);
    var a, b := sym[..k], sym[k + 1..];
    CutAtOnly(sym, k, '.');
    assert NormalizedSeparators(sym) == CommaDecimal(a + [','] + b) by {
      BranchCommaLast(sym);
    }
    assert CommaDecimal(a + [','] + b) == Filter(a, IsDigitOrSign) + "." + b by {
      CommaMark(a, b);
    }
  }

  lemma DotIsDecimalMark(sym: string)
    requires forall i :: 0 <= i < |sym| ==> IsNumericSymbol(sym[i])
    requires LastSeparator(sym) >= 0 && sym[LastSeparator(sym)] != ','
    requires CountChar(sym, '.') == 1 || ',' !in sym
    ensures var k := LastSeparator(sym);
      NormalizedSeparators(sym) == Filter(sym[..k], IsDigitOrSign) + "." + sym[k + 1..]
  {
    var k := LastSeparator(sym);
    DotIsLast(sym);
    if LastIndexOf(sym, ',') > -1 {
      DotIsMarkAfterComma(sym, k);
    } else {
      DotOnlyMark(sym, k);
    }
  }

  /** A comma found last by LastSeparator is the last comma, after every dot. */
  lemma CommaIsLast(sym: string)
    requires LastSeparator(sym) >= 0 && sym[LastSeparator(sym)] == ','
    ensures LastSeparator(sym) == LastIndexOf(sym, ',') && LastIndexOf(sym, '.') < LastSeparator(sym)
  {
    var lastDot := LastIndexOf(sym, '.');
    assert lastDot >= 0 ==> sym[lastDot] == '.';
  }

  /** A dot found last by LastSeparator is the last dot, after every comma. */
  lemma DotIsLast(sym: string)
    requires LastSeparator(sym) >= 0 && sym[LastSeparator(sym)] != ','
    ensures LastSeparator(sym) == LastIndexOf(sym, '.') && LastIndexOf(sym, ',') < LastSeparator(sym)
    ensures ',' in sym ==> LastIndexOf(sym, ',') > -1
  {
    var lastComma := LastIndexOf(sym, ',');
    assert lastComma >= 0 ==> sym[lastComma] == ',';
  }

  /** Cutting at a separator that occurs once, after the last one of the other
      kind: the pieces around it hold neither it nor, after it, the other. */
  lemma CutAtOnly(sym: string, k: nat, other: char)
    requires forall i :: 0 <= i < |sym| ==> IsNumericSymbol(sym[i])
    requires k < |sym| && CountChar(sym, sym[k]) == 1 && LastIndexOf(sym, other) < k
    ensures var a, b := sym[..k], sym[k + 1..];
      && sym == a + [sym[k]] + b && sym[k] !in a && sym[k] !in b && other !in b
      && (forall i :: 0 <= i < |a| ==> IsNumericSymbol(a[i]))
  {
    NothingAfterLast(sym, other, k);
    OnlyOccurrence(sym, k);
    CutAt(sym, k);
  }

  lemma DotIsMarkAfterComma(sym: string, k: nat)
    requires forall i :: 0 <= i < |sym| ==> IsNumericSymbol(sym[i])
    requires k == LastIndexOf(sym, '.') && k > LastIndexOf(sym, ',') > -1 && CountChar(sym, '.') == 1
    ensures NormalizedSeparators(sym) == Filter(sym[..k], IsDigitOrSign) + "." + sym[k + 1..]
  {
    var a, b := sym[..k], sym[k + 1..];
    CutAtOnly(sym, k, ',');
    assert NormalizedSeparators(sym) == RemoveChar(a + ['.'] + b, ',') by {
      BranchDotLast(sym);
    }
    assert RemoveChar(a + ['.'] + b, ',') == Filter(a, IsDigitOrSign) + "." + b by {
      DotMark(a, b);
    }
  }

  lemma DotOnlyMark(sym: string, k: nat)
    requires forall i :: 0 <= i < |sym| ==> IsNumericSymbol(sym[i])
    requires k == LastIndexOf(sym, '.') && ',' !in sym
    ensures NormalizedSeparators(sym) == Filter(sym[..k], IsDigitOrSign) + "." + sym[k + 1..]
  {
    DotOnlyShape(sym, k);
    PrefixDotsRemoved(sym, k);
  }

  lemma DotOnlyShape(sym: string, k: nat)
    requires k == LastIndexOf(sym, '.') && ',' !in sym
    ensures NormalizedSeparators(sym) == RemoveChar(sym[..k], '.') + "." + sym[k + 1..]
  {
    BranchDotOnly(sym);
    LastDotDecimalShape(sym);
  }

  /** Before a dot, in a text of numeric symbols without commas, deleting the
      dots leaves the digits and signs. */
  lemma PrefixDotsRemoved(sym: string, k: nat)
    requires forall i :: 0 <= i < |sym| ==> IsNumericSymbol(sym[i])
    requires k < |sym| && ',' !in sym
    ensures RemoveChar(sym[..k], '.') == Filter(sym[..k], IsDigitOrSign)
  {
    var a := sym[..k];
    PrefixLacks(sym, k, ',');
    assert forall i :: 0 <= i < |a| ==> IsNumericSymbol(a[i]);
    RemoveOtherSeparator(a, ',', '.');
  }

  lemma BranchCommaLast(sym: string)
    requires LastIndexOf(sym, ',') > LastIndexOf(sym, '.')
    ensures NormalizedSeparators(sym) == CommaDecimal(sym)
  {}

  lemma BranchDotLast(sym: string)
    requires LastIndexOf(sym, '.') > LastIndexOf(sym, ',') > -1
    ensures NormalizedSeparators(sym) == RemoveChar(sym, ',')
  {}

  lemma BranchDotOnly(sym: string)
    requires ',' !in sym && '.' in sym
    ensures NormalizedSeparators(sym) == LastDotDecimal(sym)
  {}

  lemma PrefixLacks(s: string, k: nat, x: char)
    requires k <= |s| && x !in s
    ensures x !in s[..k]
  {
    assert s == s[..k] + s[k..];
  }

  lemma CutAt(s: string, k: nat)
    requires k < |s|
    ensures s == s[..k] + [s[k]] + s[k + 1..]
  {}

  lemma NothingAfterLast(s: string, x: char, k: int)
    requires LastIndexOf(s, x) <= k < |s|
    ensures x !in s[k + 1..]
  {
    var t := s[k + 1..];
    forall i | 0 <= i < |t| ensures t[i] != x {
      assert t[i] == s[k + 1 + i];
    }
  }

  lemma CommaMark(a: string, b: string)
    requires forall i :: 0 <= i < |a| ==> IsNumericSymbol(a[i])
    requires ',' !in a && ',' !in b && '.' !in b
    ensures CommaDecimal(a + [','] + b) == Filter(a, IsDigitOrSign) + "." + b
  {
    RemoveDotsAroundComma(a, b);
    RemoveOtherSeparator(a, ',', '.');
    CommaBecomesDot(RemoveChar(a, '.'), b);
  }

  lemma RemoveDotsAroundComma(a: string, b: string)
    requires '.' !in b
    ensures RemoveChar(a + [','] + b, '.') == RemoveChar(a, '.') + [','] + b
  {
    RemoveCharAppend(a + [','], b, '.');
    RemoveCharAppend(a, [','], '.');
    RemoveCharAbsent(b, '.');
    assert RemoveChar([','], '.') == [','];
  }

  lemma CommaBecomesDot(a: string, b: string)
    requires ',' !in a && ',' !in b
    ensures ReplaceChar(a + [','] + b, ',', '.') == a + ['.'] + b
  {
  }

  lemma DotMark(a: string, b: string)
    requires forall i :: 0 <= i < |a| ==> IsNumericSymbol(a[i])
    requires '.' !in a && ',' !in b && '.' !in b
    ensures RemoveChar(a + ['.'] + b, ',') == Filter(a, IsDigitOrSign) + "." + b
  {
    RemoveCharAppend(a + ['.'], b, ',');
    RemoveCharAppend(a, ['.'], ',');
    RemoveCharAbsent(b, ',');
    assert RemoveChar(['.'], ',') == ['.'];
    RemoveOtherSeparator(a, '.', ',');
  }

  /** A text without separators is handed to `Number` unchanged. */
  lemma NoSeparatorUnchanged(sym: string)
    requires ',' !in sym && '.' !in sym
    ensures NormalizedSeparators(sym) == sym
  {
  }
}
