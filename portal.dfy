/** The supplier portal page (app/portal/page.tsx): the score normaliser, label
    truncation, the upload extension whitelist, the certificate number, the
    merge of the category list, the category toggle and the de-duplication of
    the required documents of the selected categories. */
module Portal {
  import opened Text
  import opened Wrappers
  import opened NumberText
  import opened Lists

  // ---------------------------------------------------------------------------
  // sanitizeNumericInput

  /** The separator rewrite of `sanitizeNumericInput`, once only numeric
      symbols are left: the separator that occurs last is the decimal mark. */
  method NormalizeSeparators(onlyNumericSymbols: string) returns (normalized: string)
    ensures normalized == NormalizedSeparators(onlyNumericSymbols)
  {
    var lastComma := LastIndexOf(onlyNumericSymbols, ',');
    var lastDot := LastIndexOf(onlyNumericSymbols, '.');
    normalized := onlyNumericSymbols;
    if lastComma > -1 && lastDot > -1 {
      if lastComma > lastDot {
        normalized := ReplaceChar(RemoveChar(onlyNumericSymbols, '.'), ',', '.');
      } else {
        normalized := RemoveChar(onlyNumericSymbols, ',');
      }
    } else if lastComma > -1 {
      normalized := ReplaceChar(RemoveChar(onlyNumericSymbols, '.'), ',', '.');
    } else if lastDot > -1 {
      var parts := Split(onlyNumericSymbols, '.');
      var decimal := parts[|parts| - 1];
      parts := parts[..|parts| - 1];
      normalized := Join(parts) + "." + decimal;
    }
  }

  /** `sanitizeNumericInput`: a finite number is kept; a string is trimmed,
      reduced to its numeric symbols, its separators normalised and the result
      handed to `Number`; everything else, a blank string and a text that
      `Number` cannot turn into a finite value, give 0. */
  method SanitizeNumericInput(value: JsValue, toNumber: NumberParser) returns (r: real)
    ensures value.JsNumber? ==> r == value.x
    ensures value.JsNonFinite? || value.JsOther? ==> r == 0.0
    ensures value.JsString? && AllSpace(value.s) ==> r == 0.0
    ensures value.JsString? && !AllSpace(value.s) ==>
      r == toNumber(NormalizedSeparators(NumericSymbols(Trim(value.s)))).GetOr(0.0)
  {
    if value.JsNumber? {
      return value.x;
    }
    if value.JsString? {
      var trimmed := Trim(value.s);
      TrimEmptyIffAllSpace(value.s);
      if trimmed == [] {
        return 0.0;
      }
      var onlyNumericSymbols := NumericSymbols(trimmed);
      var normalized := NormalizeSeparators(onlyNumericSymbols);
      var parsed := toNumber(normalized);
      return if parsed.Some? then parsed.value else 0.0;
    }
    return 0.0;
  }

  // ---------------------------------------------------------------------------
  // shortenLabel

  function Max(a: int, b: int): int { if a < b then b else a }

  function Min(a: int, b: int): int { if a < b then a else b }

  /** Cutting `t` to `n` characters (as `slice(0, n)` does, keeping all of a
      shorter text) and then trimming the end leaves a prefix of `t` followed,
      up to the cut, only by white space. */
  lemma CutThenTrimEnd(t: string, n: nat)
    ensures var kept := TrimEnd(if n < |t| then t[..n] else t);
      && |kept| <= n && |kept| <= |t| && kept == t[..|kept|]
      && (kept != [] ==> !IsJsSpace(kept[|kept| - 1]))
      && (forall i :: |kept| <= i < Min(n, |t|) ==> IsJsSpace(t[i]))
  {
    var cut := if n < |t| then t[..n] else t;
    var kept := TrimEnd(cut);
    assert forall i :: 0 <= i < |cut| ==> cut[i] == t[i];
  }

  /** `shortenLabel`: the trimmed label when it fits in `maxLength`; otherwise
      its first `max(3, maxLength - 3)` characters, without trailing white space,
      followed by "...". */
  function ShortenLabel(value: string, maxLength: int := 48): (r: string)
    ensures |Trim(value)| <= maxLength ==> r == Trim(value)
    ensures |Trim(value)| > maxLength ==>
      && |r| >= 3 && r[|r| - 3..] == "..."
      && var kept := r[..|r| - 3];
      && |kept| <= Max(3, maxLength - 3)
      && |kept| <= |Trim(value)| && kept == Trim(value)[..|kept|]
      && (kept != [] ==> !IsJsSpace(kept[|kept| - 1]))
      && (forall i :: |kept| <= i < Min(Max(3, maxLength - 3), |Trim(value)|) ==>
            IsJsSpace(Trim(value)[i]))
  {
    var trimmed := Trim(value);
    if |trimmed| <= maxLength then trimmed
    else
      var safeLength := Max(3, maxLength - 3);
      ShortenedShape(trimmed, safeLength);
      Shortened(trimmed, safeLength)
  }

  /** The label cut to `safeLength` characters, its trailing white space
      dropped, and "..." appended. */
  function Shortened(trimmed: string, safeLength: nat): string {
    var cut := if safeLength < |trimmed| then trimmed[..safeLength] else trimmed;
    TrimEnd(cut) + "..."
  }

  lemma ShortenedShape(trimmed: string, safeLength: nat)
    ensures var r := Shortened(trimmed, safeLength);
      && |r| >= 3 && r[|r| - 3..] == "..."
      && var kept := r[..|r| - 3];
      && |kept| <= safeLength
      && |kept| <= |trimmed| && kept == trimmed[..|kept|]
      && (kept != [] ==> !IsJsSpace(kept[|kept| - 1]))
      && (forall i :: |kept| <= i < Min(safeLength, |trimmed|) ==> IsJsSpace(trimmed[i]))
  {
    var kept := TrimEnd(if safeLength < |trimmed| then trimmed[..safeLength] else trimmed);
    CutThenTrimEnd(trimmed, safeLength);
    assert (kept + "...")[..|kept|] == kept;
  }

  /** A shortened label is never longer than `maxLength` once `maxLength` leaves
      room for three characters and the ellipsis; below that it is at most 6. */
  lemma ShortenLabelBound(value: string, maxLength: int)
    ensures |ShortenLabel(value, maxLength)| <= Max(6, maxLength)
    ensures maxLength >= 6 ==> |ShortenLabel(value, maxLength)| <= maxLength
  {
  }

  /** A non-blank label never shortens to a bare "...": the first character of
      the trimmed label survives. */
  lemma ShortenLabelKeepsStart(value: string, maxLength: int)
    requires Trim(value) != []
    ensures var r := ShortenLabel(value, maxLength);
      |r| > 0 && r[0] == Trim(value)[0] && !IsJsSpace(r[0])
  {
    TrimIsInfix(value);
    var trimmed := Trim(value);
    if |trimmed| > maxLength {
      var safeLength := Max(3, maxLength - 3);
      var cut := if safeLength < |trimmed| then trimmed[..safeLength] else trimmed;
      assert cut[0] == trimmed[0];
      assert TrimEnd(cut) != [];
    }
  }

  /** With room for the ellipsis, shortening is idempotent: a shortened label is
      already trimmed and fits. */
  lemma ShortenLabelIdempotent(value: string, maxLength: int)
    requires maxLength >= 6
    ensures ShortenLabel(ShortenLabel(value, maxLength), maxLength) == ShortenLabel(value, maxLength)
  {
    var r := ShortenLabel(value, maxLength);
    ShortenLabelBound(value, maxLength);
    if |Trim(value)| <= maxLength {
      TrimIdempotent(value);
    } else {
      ShortenLabelKeepsStart(value, maxLength);
      assert r[|r| - 1] == '.';
      TrimOfTrimmed(r);
    }
  }

  // ---------------------------------------------------------------------------
  // ACCEPTED_EXT and extOK

  const AcceptedExt: seq<string> := ["pdf", "doc", "docx", "jpg", "jpeg", "png", "xlsx", "csv"]

  /** `extOK`: the last piece of the file name split at ".", lower-cased, is one
      of the accepted extensions; the empty piece is refused. */
  function ExtOK(name: string): (ok: bool)
    ensures ok <==> ToLowerAscii(name[LastIndexOf(name, '.') + 1..]) in AcceptedExt
  {
    var parts := Split(name, '.');
    var ext := ToLowerAscii(parts[|parts| - 1]);
    assert parts[|parts| - 1] == name[LastIndexOf(name, '.') + 1..] by {
      SplitAtLast(name, '.');
      if LastIndexOf(name, '.') == -1 {
        assert name[0..] == name;
      }
    }
    assert "" !in AcceptedExt by {
      assert forall i :: 0 <= i < |AcceptedExt| ==> |AcceptedExt[i]| >= 3;
    }
    ext != "" && ext in AcceptedExt
  }

  lemma {:induction false} LastIndexOfAfter(a: string, x: char, b: string)
    requires x !in b
    ensures LastIndexOf(a + [x] + b, x) == |a|
  {
    if b == [] {
      assert a + [x] + b == a + [x];
    } else {
      var b', c := b[..|b| - 1], b[|b| - 1];
      assert b == b' + [c];
      assert a + [x] + b == (a + [x] + b') + [c];
      assert (a + [x] + b)[..|a + [x] + b| - 1] == a + [x] + b';
      LastIndexOfAfter(a, x, b');
    }
  }

  /** Only the piece after the last dot decides, whatever comes before it, and
      the decision ignores the letter case of that piece. */
  lemma ExtOKDecidedByLastPiece(base: string, ext: string)
    requires '.' !in ext
    ensures ExtOK(base + "." + ext) <==> ToLowerAscii(ext) in AcceptedExt
  {
    LastIndexOfAfter(base, '.', ext);
    assert (base + "." + ext)[|base| + 1..] == ext;
  }

  /** A name without a dot is its own extension. */
  lemma ExtOKWithoutDot(name: string)
    requires '.' !in name
    ensures ExtOK(name) <==> ToLowerAscii(name) in AcceptedExt
  {
  }

  // ---------------------------------------------------------------------------
  // Certificate number

  /** `replace(/[^A-Za-z0-9]/g, "").toUpperCase()`. */
  function CertificateChars(id: string): (n: string)
    ensures |n| <= |id|
    ensures forall i :: 0 <= i < |n| ==> IsDigit(n[i]) || IsAsciiUpper(n[i])
  {
    ToUpperAscii(Filter(id, IsAsciiAlnum))
  }

  /** `slice(-n)`: the last `n` characters, or all of them when there are fewer. */
  function LastN(s: string, n: nat): string {
    if |s| <= n then s else s[|s| - n..]
  }

  /** `padStart(n, "0")`. */
  function PadStartZeros(s: string, n: nat): string {
    if |s| >= n then s else seq(n - |s|, _ => '0') + s
  }

  /** The certificate number shown on the printed certificate. With at least one
      ASCII letter or digit in the supplier id, it is "ENG-" and six characters:
      the last (up to six) of those letters and digits, upper-cased, behind
      leading zeros. An id with none of them is upper-cased whole by the
      runtime's `toUpperCase`, passed in as `toUpperCase`; no id gives
      "ENG-000000". */
  function CertificateNumber(id: Option<string>, toUpperCase: string -> string): (r: string)
    ensures |r| >= 4 && r[..4] == "ENG-"
    ensures id.None? || id.value == "" ==> r == "ENG-000000"
    ensures id.Some? && id.value != "" && CertificateChars(id.value) == "" ==>
      r == "ENG-" + toUpperCase(id.value)
    ensures id.Some? && CertificateChars(id.value) != "" ==>
      var n := CertificateChars(id.value);
      var m := Min(6, |n|);
      && |r| == 10
      && r[10 - m..] == n[|n| - m..]
      && (forall i :: 4 <= i < 10 - m ==> r[i] == '0')
      && (forall i :: 4 <= i < 10 ==> IsDigit(r[i]) || IsAsciiUpper(r[i]))
  {
    var normalizedId := if id.Some? && id.value != "" then CertificateChars(id.value) else "";
    if |normalizedId| > 0 then
      var last := LastN(normalizedId, 6);
      var padded := PadStartZeros(last, 6);
      assert ("ENG-" + padded)[4..] == padded;
      "ENG-" + padded
    else if id.Some? && id.value != "" then "ENG-" + toUpperCase(id.value)
    else "ENG-000000"
  }

  /** Punctuation in the id does not change the certificate number. */
  lemma CertificateIgnoresPunctuation(id: string, toUpperCase: string -> string)
    requires CertificateChars(id) != ""
    ensures CertificateNumber(Some(id), toUpperCase) ==
      CertificateNumber(Some(Filter(id, IsAsciiAlnum)), toUpperCase)
  {
    FilterKeepsAll(Filter(id, IsAsciiAlnum), IsAsciiAlnum);
  }

  // ---------------------------------------------------------------------------
  // Category list merge and toggle

  function TrimAll(lista: seq<string>): (r: seq<string>)
    ensures |r| == |lista| && forall i :: 0 <= i < |lista| ==> r[i] == Trim(lista[i])
  {
    seq(|lista|, i requires 0 <= i < |lista| => Trim(lista[i]))
  }

  predicate NonEmpty(s: string) { |s| > 0 }

  function Id(s: string): string { s }

  /** `categoriasNormalizadas`: the catalogue's categories trimmed, blank ones
      dropped and duplicates removed with `Array.from(new Set(..))`, which keeps
      the first occurrence of each. */
  function NormalizedCategories(lista: seq<string>): (r: seq<string>)
    ensures |r| <= |lista|
    ensures "" !in r
  {
    var kept := FilterBy(TrimAll(lista), NonEmpty);
    InKeysOfId(UniqueBy(kept, Id), "");
    InKeysOfId(kept, "");
    UniqueBy(kept, Id)
  }

  lemma InKeysOfId(xs: seq<string>, c: string)
    ensures c in xs <==> c in Keys(xs, Id)
  {
    if c in xs {
      var i :| 0 <= i < |xs| && xs[i] == c;
      assert Id(xs[i]) == c;
    }
  }

  lemma TrimAllTrimmed(lista: seq<string>, c: string)
    requires c in TrimAll(lista)
    ensures Trim(c) == c
  {
    var i :| 0 <= i < |lista| && TrimAll(lista)[i] == c;
    TrimIdempotent(lista[i]);
  }

  /** Every non-blank catalogue category, trimmed, appears exactly once, and
      nothing else does. */
  lemma NormalizedCategoriesShape(lista: seq<string>)
    ensures var r := NormalizedCategories(lista);
      && (forall i, j :: 0 <= i < j < |r| ==> r[i] != r[j])
      && (forall c :: c in r ==> c != "" && Trim(c) == c && c in TrimAll(lista))
      && (forall i :: 0 <= i < |lista| && Trim(lista[i]) != "" ==> Trim(lista[i]) in r)
  {
    var trimmed := TrimAll(lista);
    var kept := FilterBy(trimmed, NonEmpty);
    var r := UniqueBy(kept, Id);
    FilterByMembers(trimmed, NonEmpty);
    forall c | c in r ensures c != "" && Trim(c) == c && c in trimmed {
      InKeysOfId(r, c);
      InKeysOfId(kept, c);
      assert multiset(kept)[c] > 0;
      assert NonEmpty(c) && multiset(trimmed)[c] > 0;
      TrimAllTrimmed(lista, c);
    }
    forall i | 0 <= i < |lista| && Trim(lista[i]) != "" ensures Trim(lista[i]) in r {
      var c := trimmed[i];
      assert c == Trim(lista[i]) && NonEmpty(c);
      assert multiset(trimmed)[c] > 0;
      assert multiset(kept)[c] > 0;
      InKeysOfId(r, c);
      InKeysOfId(kept, c);
    }
    forall i, j | 0 <= i < j < |r| ensures r[i] != r[j] {
      assert Id(r[i]) != Id(r[j]);
    }
  }

  /** `categoriaResumo`: the supplier's own category, trimmed, or "" when the
      summary has none. */
  function CategoriaResumo(categoria: Option<string>): (r: string)
    ensures Trim(r) == r
  {
    if categoria.Some? then
      TrimIdempotent(categoria.value);
      Trim(categoria.value)
    else ""
  }

  /** `listaComResumo`: the normalised catalogue, with the supplier's own
      category put in front when it is not blank and not already listed. */
  function MergeCategories(categoria: Option<string>, lista: seq<string>): (r: seq<string>)
    ensures CategoriaResumo(categoria) != "" ==> CategoriaResumo(categoria) in r
    ensures "" !in r
    ensures |r| <= |lista| + 1
  {
    var resumo := CategoriaResumo(categoria);
    var normalizadas := NormalizedCategories(lista);
    if resumo != "" && resumo !in normalizadas then [resumo] + normalizadas else normalizadas
  }

  lemma PrependKeepsDistinct(x: string, xs: seq<string>)
    requires x !in xs
    requires forall i, j :: 0 <= i < j < |xs| ==> xs[i] != xs[j]
    ensures var r := [x] + xs; forall i, j :: 0 <= i < j < |r| ==> r[i] != r[j]
  {
    var r := [x] + xs;
    forall i, j | 0 <= i < j < |r| ensures r[i] != r[j] {
      assert r[j] == xs[j - 1];
      if i > 0 {
        assert r[i] == xs[i - 1];
      }
    }
  }

  /** The merged list has no duplicates, and holds only non-blank trimmed
      entries taken from the catalogue or the supplier's category. */
  lemma MergeCategoriesOnlyOnce(categoria: Option<string>, lista: seq<string>)
    ensures var r := MergeCategories(categoria, lista);
      && (forall i, j :: 0 <= i < j < |r| ==> r[i] != r[j])
      && (forall c :: c in r ==>
            c != "" && Trim(c) == c && (c == CategoriaResumo(categoria) || c in TrimAll(lista)))
  {
    var resumo := CategoriaResumo(categoria);
    var normalizadas := NormalizedCategories(lista);
    NormalizedCategoriesShape(lista);
    if resumo != "" && resumo !in normalizadas {
      PrependKeepsDistinct(resumo, normalizadas);
    }
  }

  /** Every non-blank catalogue category and the supplier's category are
      offered; the supplier's comes first when the catalogue lacks it. */
  lemma MergeCategoriesComplete(categoria: Option<string>, lista: seq<string>)
    ensures var r := MergeCategories(categoria, lista);
      && (forall i :: 0 <= i < |lista| && Trim(lista[i]) != "" ==> Trim(lista[i]) in r)
      && (CategoriaResumo(categoria) != "" ==> CategoriaResumo(categoria) in r)
      && (CategoriaResumo(categoria) != "" && CategoriaResumo(categoria) !in TrimAll(lista) ==>
            r[0] == CategoriaResumo(categoria))
  {
    NormalizedCategoriesShape(lista);
  }

  /** `handleCategoriaToggle`: a selected category is removed (every
      occurrence), an unselected one is appended at the end. */
  function ToggleCategory(prev: seq<string>, valor: string): (next: seq<string>)
    ensures valor in next <==> valor !in prev
    ensures forall c :: c != valor ==> multiset(next)[c] == multiset(prev)[c]
    ensures valor !in prev ==> next == prev + [valor]
    ensures valor in prev ==> next == Without(prev, valor)
  {
    if valor in prev then
      var next := Without(prev, valor);
      assert multiset(next)[valor] == 0;
      next
    else prev + [valor]
  }

  /** Toggling an unselected category twice restores the selection. */
  lemma ToggleTwiceRestores(prev: seq<string>, valor: string)
    requires valor !in prev
    ensures ToggleCategory(ToggleCategory(prev, valor), valor) == prev
  {
    WithoutAppend(prev, [valor], valor);
    WithoutAbsent(prev, valor);
  }

  /** Toggling a selected category twice moves it, once, to the end. */
  lemma ToggleTwiceMovesToEnd(prev: seq<string>, valor: string)
    requires valor in prev
    ensures ToggleCategory(ToggleCategory(prev, valor), valor) == Without(prev, valor) + [valor]
  {
  }

  // ---------------------------------------------------------------------------
  // Required documents

  /** `DocRequisito`; the attached `File` is represented by its name. */
  datatype DocRequisito = DocRequisito(
    id: string,
    titulo: string,
    descricao: Option<string>,
    obrigatorio: bool,
    file: Option<string>)

  function Titulo(d: DocRequisito): string { d.titulo }

  /** `docsArrays.flat()`. */
  function Flatten(docsArrays: seq<seq<DocRequisito>>): (all: seq<DocRequisito>)
    ensures |docsArrays| > 0 ==>
      all == Flatten(docsArrays[..|docsArrays| - 1]) + docsArrays[|docsArrays| - 1]
  {
    if docsArrays == [] then []
    else
      var front := docsArrays[..|docsArrays| - 1];
      assert docsArrays == front + [docsArrays[|docsArrays| - 1]];
      Flatten(front) + docsArrays[|docsArrays| - 1]
  }

  /** The `reduce` over the flattened document lists of the selected categories
      that pushes a document onto the accumulator only when no document already
      there has its title. The result is the first document of every title, in
      the order of first appearance (UniqueBy with its lemmas
      UniqueByKeepsFirst and UniqueByKeepsOrder). */
  method UniqueDocs(docsArrays: seq<seq<DocRequisito>>) returns (acc: seq<DocRequisito>)
    ensures acc == UniqueBy(Flatten(docsArrays), Titulo)
    ensures forall i, j :: 0 <= i < j < |acc| ==> acc[i].titulo != acc[j].titulo
    ensures Keys(acc, Titulo) == Keys(Flatten(docsArrays), Titulo)
  {
    var allDocs := Flatten(docsArrays);
    acc := [];
    var i := 0;
    while i < |allDocs|
      invariant 0 <= i <= |allDocs|
      invariant acc == UniqueBy(allDocs[..i], Titulo)
    {
      var doc := allDocs[i];
      TakeSnoc(allDocs, i);
      UniqueBySnoc(allDocs[..i], doc, Titulo);
      if doc.titulo !in Keys(acc, Titulo) {
        acc := acc + [doc];
      }
      i := i + 1;
    }
    assert allDocs[..|allDocs|] == allDocs;
  }
}
