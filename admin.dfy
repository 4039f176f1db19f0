/** The administrators' dashboard (app/admin/page.tsx): relative times, document
    names, score normalisation, supplier status normalisation, the per-status
    totals and filter, and the totals of the monthly report. */
module Admin {
  import opened Text
  import opened Wrappers
  import opened NumberText
  import opened Lists
  import Portal

  // ---------------------------------------------------------------------------
  // formatRelativeTime

  /** What `formatRelativeTime` shows: "agora", "há N min", "há N h", "há N d",
      or the short date of the instant. */
  datatype RelativeTime = Agora | Minutes(n: int) | Hours(n: int) | Days(n: int) | ShortDate(instant: int)

  /** `Math.round(a / d)` for integers: the nearest integer, halves rounded up. */
  function JsRoundDiv(a: int, d: int): (q: int)
    requires d > 0
    ensures d * q - d / 2 <= a < d * q + d - d / 2
  {
    (2 * a + d) / (2 * d)
  }

  /** `formatRelativeTime`. `parsed` is `new Date(value).getTime()`, None when it
      is NaN; `now` is `Date.now()`; both in milliseconds. */
  function FormatRelativeTime(parsed: Option<int>, now: int): (r: RelativeTime)
    ensures r.Agora? <==> parsed.None? || JsRoundDiv(now - parsed.value, 60000) < 1
    ensures r.Minutes? ==> 1 <= r.n < 60
    ensures r.Hours? ==> 1 <= r.n < 24
    ensures r.Days? ==> 1 <= r.n < 7
    ensures r.ShortDate? ==> parsed == Some(r.instant)
  {
    if parsed.None? then Agora
    else
      var diffMs := now - parsed.value;
      var diffMinutes := JsRoundDiv(diffMs, 60000);
      if diffMinutes < 1 then Agora
      else if diffMinutes < 60 then Minutes(diffMinutes)
      else
        var diffHours := JsRoundDiv(diffMinutes, 60);
        if diffHours < 24 then Hours(diffHours)
        else
          var diffDays := JsRoundDiv(diffHours, 24);
          if diffDays < 7 then Days(diffDays)
          else ShortDate(parsed.value)
  }

  /** The bands in milliseconds of elapsed time: under 30 s (which includes every
      instant in the future) is "agora"; minutes up to 59.5 min; hours up to
      23.5 h; days below 6.5 days plus the rounding of the hours. */
  lemma RelativeTimeBands(instant: int, now: int)
    ensures var r := FormatRelativeTime(Some(instant), now); var d := now - instant;
      && (r.Agora? <==> d < 30000)
      && (r.Minutes? <==> 30000 <= d < 3570000)
      && (r.Hours? <==> 3570000 <= d < 84570000)
      && (r.Days? <==> 84570000 <= d < 559770000)
      && (r.ShortDate? <==> 559770000 <= d)
  {
    var d := now - instant;
    var m := JsRoundDiv(d, 60000);
    assert m < 1 <==> d < 30000;
    assert m < 60 <==> d < 3570000;
    if m >= 60 {
      var h := JsRoundDiv(m, 60);
      assert h < 24 <==> m < 1410;
      assert m < 1410 <==> d < 84570000;
      if h >= 24 {
        assert JsRoundDiv(h, 24) < 7 <==> h < 156;
        assert h < 156 <==> m < 9330;
        assert m < 9330 <==> d < 559770000;
      }
    }
  }

  /** An invalid date always reads "agora". */
  lemma InvalidDateIsNow(now: int)
    ensures FormatRelativeTime(None, now) == Agora
  {
  }

  // ---------------------------------------------------------------------------
  // shortenDocumentName

  /** `shortenDocumentName`: `shortenLabel` with a default of 36 characters, a
      missing or empty name counting as "". */
  function ShortenDocumentName(value: Option<string>, maxLength: int := 36): (r: string)
    ensures r == Portal.ShortenLabel(value.GetOr(""), maxLength)
  {
    var formatted := Trim(value.GetOr(""));
    if |formatted| <= maxLength then formatted
    else
      var safeLength := if maxLength - 3 > 3 then maxLength - 3 else 3;
      (if safeLength < |formatted| then TrimEnd(formatted[..safeLength]) else TrimEnd(formatted)) + "..."
  }

  /** A missing name is shown as the empty name. */
  lemma ShortenDocumentNameOfNothing(maxLength: int)
    requires maxLength >= 0
    ensures ShortenDocumentName(None, maxLength) == ""
  {
  }

  // ---------------------------------------------------------------------------
  // normalizeNota

  /** `normalizeNota`: like the portal's `sanitizeNumericInput`, but every
      failure is null (None) instead of 0, and a text without any numeric symbol
      is a failure instead of `Number("")`. */
  method NormalizeNota(value: JsValue, toNumber: NumberParser) returns (r: Option<real>)
    ensures value.JsNumber? ==> r == Some(value.x)
    ensures value.JsNonFinite? || value.JsOther? ==> r == None
    ensures value.JsString? && NumericSymbols(Trim(value.s)) == "" ==> r == None
    ensures value.JsString? && AllSpace(value.s) ==> r == None
    ensures value.JsString? && NumericSymbols(Trim(value.s)) != "" ==>
      r == toNumber(NormalizedSeparators(NumericSymbols(Trim(value.s))))
  {
    if value.JsNumber? {
      return Some(value.x);
    }
    if value.JsNonFinite? {
      return None;
    }
    if value.JsString? {
      var trimmed := Trim(value.s);
      TrimEmptyIffAllSpace(value.s);
      if trimmed == [] {
        return None;
      }
      var numericSymbols := NumericSymbols(trimmed);
      if numericSymbols == [] {
        return None;
      }
      var lastComma := LastIndexOf(numericSymbols, ',');
      var lastDot := LastIndexOf(numericSymbols, '.');
      var normalized := numericSymbols;
      if lastComma > -1 && lastDot > -1 {
        normalized := if lastComma > lastDot
          then ReplaceChar(RemoveChar(numericSymbols, '.'), ',', '.')
          else RemoveChar(numericSymbols, ',');
      } else if lastComma > -1 {
        normalized := ReplaceChar(RemoveChar(numericSymbols, '.'), ',', '.');
      } else if lastDot > -1 {
        var parts := Split(numericSymbols, '.');
        var decimal := parts[|parts| - 1];
        parts := parts[..|parts| - 1];
        normalized := Join(parts) + "." + decimal;
      }
      return toNumber(normalized);
    }
    return None;
  }

  // ---------------------------------------------------------------------------
  // normalizarStatus

  datatype Status = Aprovado | Reprovado | Pendente

  /** The status as the API spells it. */
  function StatusText(s: Status): string {
    match s
    case Aprovado => "APROVADO"
    case Reprovado => "REPROVADO"
    case Pendente => "PENDENTE"
  }

  /** `(rawStatus ?? "").toString().trim().toUpperCase()`. */
  function NormalizedText(rawStatus: Option<string>): string {
    ToUpperAscii(Trim(rawStatus.GetOr("")))
  }

  function StatusOfText(normalized: string): Status {
    if normalized == "APROVADO" then Aprovado
    else if normalized == "REPROVADO" then Reprovado
    else Pendente
  }

  /** `normalizarStatus`: the trimmed, upper-cased text decides; anything other
      than APROVADO and REPROVADO, a missing status included, is PENDENTE. */
  function NormalizarStatus(rawStatus: Option<string>): Status
  {
    StatusOfText(NormalizedText(rawStatus))
  }

  lemma StatusTextIsNormal(s: Status)
    ensures NormalizedText(Some(StatusText(s))) == StatusText(s)
  {
    var t := StatusText(s);
    assert !IsJsSpace(t[0]) && !IsJsSpace(t[|t| - 1]);
    assert forall i :: 0 <= i < |t| ==> IsAsciiUpper(t[i]);
    UpperOfUpper(t);
    TrimOfTrimmed(t);
  }

  lemma StatusOfItsText(s: Status)
    ensures StatusOfText(StatusText(s)) == s
  {
    match s
    case Aprovado =>
    case Reprovado =>
      assert StatusText(s)[0] != "APROVADO"[0];
    case Pendente =>
      assert StatusText(s)[0] != "APROVADO"[0] && StatusText(s)[0] != "REPROVADO"[0];
  }

  /** A status spelled as the API spells it normalises to itself, so
      normalising twice changes nothing. */
  lemma NormalizarStatusOfText(s: Status)
    ensures NormalizarStatus(Some(StatusText(s))) == s
  {
    StatusTextIsNormal(s);
    StatusOfItsText(s);
  }

  lemma NormalizarStatusIdempotent(raw: Option<string>)
    ensures NormalizarStatus(Some(StatusText(NormalizarStatus(raw)))) == NormalizarStatus(raw)
  {
    NormalizarStatusOfText(NormalizarStatus(raw));
  }

  /** A missing status, and the "A CADASTRAR " the API sends for a supplier
      still to be registered, both count as PENDENTE. */
  lemma PendingStatuses()
    ensures NormalizarStatus(None) == Pendente
    ensures NormalizarStatus(Some("A CADASTRAR ")) == Pendente
  {
    assert Trim("") == "";
    var s := "A CADASTRAR ";
    var t := s[..|s| - 1];
    assert !IsJsSpace(s[0]) && IsJsSpace(s[|s| - 1]) && !IsJsSpace(t[|t| - 1]);
    TrimStartOfTrimmed(s);
    assert Trim(s) == t;
    assert ToUpperAscii(t)[1] == ' ';
  }

  // ---------------------------------------------------------------------------
  // Suppliers, totals and filter

  /** The fields of `FornecedorAdmin` the totals, filter and report read. The
      status is kept as the API sent it. */
  datatype FornecedorAdmin = FornecedorAdmin(
    id: int,
    nome: string,
    status: Option<string>,
    dataCadastro: Option<string>)

  /** How a supplier is sorted into one of the three buckets. */
  type Classifier = FornecedorAdmin -> Status

  function NormalizedStatusOf(f: FornecedorAdmin): Status { NormalizarStatus(f.status) }

  function HasClass(cls: Classifier, s: Status): FornecedorAdmin -> bool {
    f => cls(f) == s
  }

  /** Sorting by any classifier splits the list into three parts that together
      have the length of the list. */
  lemma {:induction false} ClassesPartition(xs: seq<FornecedorAdmin>, cls: Classifier)
    ensures |FilterBy(xs, HasClass(cls, Aprovado))| + |FilterBy(xs, HasClass(cls, Reprovado))|
      + |FilterBy(xs, HasClass(cls, Pendente))| == |xs|
  {
    if xs != [] {
      var front, x := xs[..|xs| - 1], xs[|xs| - 1];
      ClassesPartition(front, cls);
    }
  }

  /** Adding one supplier adds one to the count of its class only. */
  lemma ClassCountSnoc(xs: seq<FornecedorAdmin>, x: FornecedorAdmin, cls: Classifier, s: Status)
    ensures |FilterBy(xs + [x], HasClass(cls, s))| ==
      |FilterBy(xs, HasClass(cls, s))| + if cls(x) == s then 1 else 0
  {
    FilterBySnoc(xs, x, HasClass(cls, s));
  }

  datatype StatusFiltro = Todos | Only(status: Status)

  /** `fornecedoresFiltrados`: the whole list for TODOS; otherwise the suppliers
      whose normalised status is the one chosen, in their order. */
  function FornecedoresFiltrados(fornecedores: seq<FornecedorAdmin>, filtro: StatusFiltro): (r: seq<FornecedorAdmin>)
    ensures filtro == Todos ==> r == fornecedores
    ensures filtro.Only? ==> forall i :: 0 <= i < |r| ==> NormalizarStatus(r[i].status) == filtro.status
  {
    if filtro == Todos then fornecedores
    else FilterBy(fornecedores, HasClass(NormalizedStatusOf, filtro.status))
  }

  /** A status filter keeps every supplier that has the status, as many times as
      the list holds it, and no other supplier. */
  lemma FornecedoresFiltradosMembers(fornecedores: seq<FornecedorAdmin>, s: Status)
    ensures forall f :: multiset(FornecedoresFiltrados(fornecedores, Only(s)))[f] ==
                        if NormalizarStatus(f.status) == s then multiset(fornecedores)[f] else 0
  {
    FilterByMembers(fornecedores, HasClass(NormalizedStatusOf, s));
  }

  /** A status filter keeps the list's order: filtering a concatenation
      filters each part and keeps the parts in place. */
  lemma FornecedoresFiltradosKeepsOrder(a: seq<FornecedorAdmin>, b: seq<FornecedorAdmin>, filtro: StatusFiltro)
    ensures FornecedoresFiltrados(a + b, filtro) == FornecedoresFiltrados(a, filtro) + FornecedoresFiltrados(b, filtro)
  {
    if filtro.Only? {
      FilterByAppend(a, b, HasClass(NormalizedStatusOf, filtro.status));
    }
  }

  /** `{ APROVADO, REPROVADO, PENDENTE }` counters. */
  datatype Totais = Totais(aprovado: nat, reprovado: nat, pendente: nat)

  /** The counters of a list: how many of its suppliers fall in each class. */
  function ClassCounts(xs: seq<FornecedorAdmin>, cls: Classifier): Totais {
    Totais(|FilterBy(xs, HasClass(cls, Aprovado))|, |FilterBy(xs, HasClass(cls, Reprovado))|,
      |FilterBy(xs, HasClass(cls, Pendente))|)
  }

  /** One more supplier of class `s`. */
  function Tally(t: Totais, s: Status): Totais {
    match s
    case Aprovado => t.(aprovado := t.aprovado + 1)
    case Reprovado => t.(reprovado := t.reprovado + 1)
    case Pendente => t.(pendente := t.pendente + 1)
  }

  /** Adding one supplier adds one to the counter of its class only. */
  lemma ClassCountsSnoc(xs: seq<FornecedorAdmin>, x: FornecedorAdmin, cls: Classifier)
    ensures ClassCounts(xs + [x], cls) == Tally(ClassCounts(xs, cls), cls(x))
  {
    ClassCountSnoc(xs, x, cls, Aprovado);
    ClassCountSnoc(xs, x, cls, Reprovado);
    ClassCountSnoc(xs, x, cls, Pendente);
  }

  /** `totaisPorStatus`: one pass over the suppliers, adding one to the counter
      of each one's normalised status. Each counter is the length of the
      filtered list for that status, and the three add up to the supplier
      count. */
  method TotaisPorStatus(fornecedores: seq<FornecedorAdmin>) returns (t: Totais)
    ensures t.aprovado == |FornecedoresFiltrados(fornecedores, Only(Aprovado))|
    ensures t.reprovado == |FornecedoresFiltrados(fornecedores, Only(Reprovado))|
    ensures t.pendente == |FornecedoresFiltrados(fornecedores, Only(Pendente))|
    ensures t.aprovado + t.reprovado + t.pendente == |fornecedores|
  {
    t := Totais(0, 0, 0);
    var i := 0;
    while i < |fornecedores|
      invariant 0 <= i <= |fornecedores|
      invariant t == ClassCounts(fornecedores[..i], NormalizedStatusOf)
    {
      var fornecedor := fornecedores[i];
      TakeSnoc(fornecedores, i);
      ClassCountsSnoc(fornecedores[..i], fornecedor, NormalizedStatusOf);
      var statusNormalizado := NormalizedStatusOf(fornecedor);
      match statusNormalizado {
        case Aprovado => t := t.(aprovado := t.aprovado + 1);
        case Reprovado => t := t.(reprovado := t.reprovado + 1);
        case Pendente => t := t.(pendente := t.pendente + 1);
      }
      i := i + 1;
    }
    assert fornecedores[..|fornecedores|] == fornecedores;
    ClassesPartition(fornecedores, NormalizedStatusOf);
  }

  // ---------------------------------------------------------------------------
  // Monthly report

  /** A calendar month in the browser's time zone. */
  datatype YearMonth = YearMonth(year: int, month: int)

  /** `fornecedoresDoMes`'s condition: a non-empty registration date that parses
      (`dateOf` stands for `new Date(..)` read in local time, None for an invalid
      date) to the current month of the current year. */
  function InMonth(agora: YearMonth, dateOf: string -> Option<YearMonth>): (inMonth: FornecedorAdmin -> bool)
    ensures forall f: FornecedorAdmin :: inMonth(f) ==> f.dataCadastro.Some? && dateOf(f.dataCadastro.value) == Some(agora)
    ensures forall f: FornecedorAdmin :: f.dataCadastro == Some("") ==> !inMonth(f)
  {
    (f: FornecedorAdmin) => f.dataCadastro.Some? && f.dataCadastro.value != "" && dateOf(f.dataCadastro.value) == Some(agora)
  }

  /** The report's own bucket: the raw status compared as it is, so only the
      exact texts APROVADO and REPROVADO leave the "em análise" bucket. */
  function ReportBucket(f: FornecedorAdmin): (r: Status)
    ensures r == Aprovado <==> f.status == Some("APROVADO")
    ensures r == Reprovado <==> f.status == Some("REPROVADO")
  {
    if f.status == Some("APROVADO") then Aprovado
    else if f.status == Some("REPROVADO") then Reprovado
    else Pendente
  }

  datatype ReportTotals = ReportTotals(total: nat, aprovados: nat, reprovados: nat, emAnalise: nat)

  /** The totals of the monthly report: the suppliers registered in the current
      month, counted by their raw status. */
  method MonthlyTotals(fornecedores: seq<FornecedorAdmin>, agora: YearMonth,
                       dateOf: string -> Option<YearMonth>) returns (t: ReportTotals)
    ensures var doMes := FilterBy(fornecedores, InMonth(agora, dateOf));
      && t.total == |doMes|
      && t.aprovados == |FilterBy(doMes, HasClass(ReportBucket, Aprovado))|
      && t.reprovados == |FilterBy(doMes, HasClass(ReportBucket, Reprovado))|
      && t.emAnalise == |FilterBy(doMes, HasClass(ReportBucket, Pendente))|
    ensures t.total == t.aprovados + t.reprovados + t.emAnalise
  {
    var doMes := FilterBy(fornecedores, InMonth(agora, dateOf));
    t := ReportTotals(0, 0, 0, 0);
    var i := 0;
    while i < |doMes|
      invariant 0 <= i <= |doMes|
      invariant t.total == i
      invariant t.aprovados == |FilterBy(doMes[..i], HasClass(ReportBucket, Aprovado))|
      invariant t.reprovados == |FilterBy(doMes[..i], HasClass(ReportBucket, Reprovado))|
      invariant t.emAnalise == |FilterBy(doMes[..i], HasClass(ReportBucket, Pendente))|
    {
      var fornecedor := doMes[i];
      TakeSnoc(doMes, i);
      ClassCountSnoc(doMes[..i], fornecedor, ReportBucket, Aprovado);
      ClassCountSnoc(doMes[..i], fornecedor, ReportBucket, Reprovado);
      ClassCountSnoc(doMes[..i], fornecedor, ReportBucket, Pendente);
      t := t.(total := t.total + 1);
      if fornecedor.status == Some("APROVADO") {
        t := t.(aprovados := t.aprovados + 1);
      } else if fornecedor.status == Some("REPROVADO") {
        t := t.(reprovados := t.reprovados + 1);
      } else {
        t := t.(emAnalise := t.emAnalise + 1);
      }
      i := i + 1;
    }
    assert doMes[..|doMes|] == doMes;
    ClassesPartition(doMes, ReportBucket);
  }

  /** Where the report and the dashboard agree: a supplier the report counts as
      approved or rejected has that normalised status too. */
  lemma ReportBucketAgrees(f: FornecedorAdmin)
    requires ReportBucket(f) != Pendente
    ensures NormalizedStatusOf(f) == ReportBucket(f)
  {
    NormalizarStatusOfText(ReportBucket(f));
  }

  /** Where they differ: a status in lower case is approved on the dashboard but
      "em análise" in the report. */
  lemma ReportBucketDiffers()
    ensures var f := FornecedorAdmin(1, "", Some("aprovado"), None);
      NormalizedStatusOf(f) == Aprovado && ReportBucket(f) == Pendente
  {
    var s := "aprovado";
    assert s[0] == 'a' && s[|s| - 1] == 'o';
    TrimOfTrimmed(s);
    assert ToUpperAscii(s) == "APROVADO";
  }
}
