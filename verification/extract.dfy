/** The PDF revenue-line parser (`extrair_dados_pdf`), from the concatenated
    page text onward: the text is split into lines, a line is kept when it
    holds a `/`, a digit and at least four whitespace-separated tokens, and
    the first four tokens become one row.
 */
module Extract {
  import opened Schema
  import opened Text

  /** Cleaning of the revenue token: `replace(".", "").replace(",", ".")`.
      The thousands dots disappear and each decimal comma becomes a point. */
  function NormRevenue(s: string): string {
    ReplaceChar(RemoveChar(s, '.'), ',', '.')
  }

  /** The cleaned revenue token has no comma, as many points as the raw token
      had commas, and apart from the separators the same characters in the
      same order. */
  lemma NormRevenueSpec(s: string)
    ensures ',' !in NormRevenue(s)
    ensures Count(NormRevenue(s), '.') == Count(s, ',')
    ensures |NormRevenue(s)| == |s| - Count(s, '.')
    ensures RemoveChar(NormRevenue(s), '.') == RemoveChar(RemoveChar(s, '.'), ',')
  {
  }

  /** Cleaning of the ticket token: `replace(",", ".")` only, so a dot that
      is already there stays. */
  function NormTicket(s: string): string {
    ReplaceChar(s, ',', '.')
  }

  /** The cleaned ticket token has no comma and the same length; every other
      character, points included, stays where it was. */
  lemma NormTicketSpec(s: string)
    ensures ',' !in NormTicket(s)
    ensures |NormTicket(s)| == |s|
    ensures Count(NormTicket(s), '.') == Count(s, '.') + Count(s, ',')
    ensures forall i :: 0 <= i < |s| && s[i] != ',' ==> NormTicket(s)[i] == s[i]
    ensures RemoveChar(NormTicket(s), '.') == RemoveChar(RemoveChar(s, ','), '.')
  {
  }

  /** Cleaning a ticket token twice is cleaning it once. */
  lemma NormTicketIdempotent(s: string)
    ensures NormTicket(NormTicket(s)) == NormTicket(s)
  {
  }

  /** The revenue cleaning is idempotent exactly when the token has no comma:
      a token already in canonical form loses its decimal point when cleaned
      again. */
  lemma NormRevenueIdempotentIff(s: string)
    ensures NormRevenue(NormRevenue(s)) == NormRevenue(s) <==> ',' !in s
  {
    NormRevenueSpec(s);
    var once := NormRevenue(s);
    NormRevenueSpec(once);
    if ',' !in s {
      var t := RemoveChar(s, '.');
      RemoveCharCount(s, '.', ',');
      CountZero(s, ',');
      CountZero(t, ',');
      ReplaceCharAbsent(t, ',', '.');
      RemoveCharAbsent(once, '.');
      ReplaceCharAbsent(once, ',', '.');
    } else {
      CountZero(s, ',');
    }
  }

  /** The test a line must pass before it is tokenised into a row. */
  predicate Qualifies(line: string) {
    '/' in line && HasDigit(line) && |Tokens(line)| >= 4
  }

  /** What one line contributes: nothing, a row, or the exception that aborts
      the file. */
  datatype LineOutcome = Skipped | Parsed(row: Row) | Failed(error: ExtractError)

  /** One iteration of the line loop. The date token is split on `/` and
      unpacked into `Ano` (the part before) and `Mês` (the part after); the
      number tokens go through the parsers in the order the row's fields are
      built: revenue, transaction count, ticket. */
  function ParseLine(line: string, p: Parsers): (o: LineOutcome)
    ensures o.Skipped? <==> !Qualifies(line)
  {
    if !Qualifies(line) then Skipped
    else
      var partes := Tokens(line);
      var data := partes[0];
      var faturamento := NormRevenue(partes[1]);
      var comandas := partes[2];
      var ticket := NormTicket(partes[3]);
      var campos := Split(data, '/');
      if |campos| != 2 then Failed(DateUnpack(data))
      else
        match p.toFloat(faturamento)
        case None => Failed(NotAFloat(faturamento))
        case Some(f) =>
          match p.toInt(comandas)
          case None => Failed(NotAnInt(comandas))
          case Some(n) =>
            match p.toFloat(ticket)
            case None => Failed(NotAFloat(ticket))
            case Some(t) => Parsed(Row(campos[0], campos[1], f, n, t))
  }

  /** The date token decides between `Ano`/`Mês` and the unpacking error: a
      qualifying line fails on its date exactly when the first token does not
      hold exactly one `/`; otherwise `Ano` and `Mês` are the text on either
      side of that `/`. */
  lemma ParseLineDate(line: string, p: Parsers)
    requires Qualifies(line)
    ensures ParseLine(line, p).Failed? && ParseLine(line, p).error.DateUnpack?
      <==> Count(Tokens(line)[0], '/') != 1
    ensures ParseLine(line, p).Parsed? ==>
      var row := ParseLine(line, p).row;
      && row.ano + "/" + row.mes == Tokens(line)[0]
      && '/' !in row.ano && '/' !in row.mes
  {
    var campos := Split(Tokens(line)[0], '/');
    JoinSplit(Tokens(line)[0], '/');
    if |campos| == 2 {
      assert Join(campos, '/') == campos[0] + "/" + campos[1];
    }
  }

  /** For a date token `before/after` with a single slash, the row (if the
      numbers parse) takes `before` as `Ano` and `after` as `Mês`; on a
      report's `MM/YYYY` dates that puts the month under `Ano`. */
  lemma AnoIsTextBeforeSlash(line: string, before: string, after: string, p: Parsers)
    requires Qualifies(line)
    requires Tokens(line)[0] == before + "/" + after
    requires '/' !in before && '/' !in after
    ensures !(ParseLine(line, p).Failed? && ParseLine(line, p).error.DateUnpack?)
    ensures ParseLine(line, p).Parsed? ==>
      ParseLine(line, p).row.ano == before && ParseLine(line, p).row.mes == after
  {
    SplitAfter(before, '/', after);
    SplitWithout(after, '/');
  }

  /** The numbers of a produced row are what the parsers return for the
      cleaned revenue token, the count token as it stands and the cleaned
      ticket token; and when the date splits, a row is produced exactly when
      all three parse. */
  lemma ParseLineNumbers(line: string, p: Parsers)
    requires Qualifies(line)
    ensures ParseLine(line, p).Parsed? ==>
      var row := ParseLine(line, p).row;
      && p.toFloat(NormRevenue(Tokens(line)[1])) == Some(row.faturamento)
      && p.toInt(Tokens(line)[2]) == Some(row.comandas)
      && p.toFloat(NormTicket(Tokens(line)[3])) == Some(row.ticket)
    ensures Count(Tokens(line)[0], '/') == 1 ==>
      (ParseLine(line, p).Parsed? <==>
        && p.toFloat(NormRevenue(Tokens(line)[1])).Some?
        && p.toInt(Tokens(line)[2]).Some?
        && p.toFloat(NormTicket(Tokens(line)[3])).Some?)
  {
  }

  /** A qualifying line's outcome depends on its first four tokens only. */
  lemma FirstFourTokensDecide(a: string, b: string, p: Parsers)
    requires Qualifies(a) && Qualifies(b)
    requires Tokens(a)[..4] == Tokens(b)[..4]
    ensures ParseLine(a, p) == ParseLine(b, p)
  {
    // not needed for validity; naming the four tokens keeps the proof cheap
    var ta, tb := Tokens(a), Tokens(b);
    assert ta[0] == ta[..4][0] && tb[0] == tb[..4][0];
    assert ta[1] == ta[..4][1] && tb[1] == tb[..4][1];
    assert ta[2] == ta[..4][2] && tb[2] == tb[..4][2];
    assert ta[3] == ta[..4][3] && tb[3] == tb[..4][3];
  }

  /** Appending words to a qualifying line keeps it qualifying and only adds
      tokens after the existing ones. */
  lemma ExtendedLineQualifies(line: string, extra: string)
    requires Qualifies(line)
    ensures Qualifies(line + " " + extra)
    ensures Tokens(line + " " + extra) == Tokens(line) + Tokens(extra)
  {
    var longer := line + " " + extra;
    assert longer == line + [' '] + extra;
    TokensConcat(line, ' ', extra);
    var i :| 0 <= i < |line| && IsDigit(line[i]);
    assert longer[i] == line[i];
    var k :| 0 <= k < |line| && line[k] == '/';
    assert longer[k] == '/';
  }

  /** Tokens after the fourth play no part: appending more words to a
      qualifying line yields the same outcome. */
  lemma ExtraTokensIgnored(line: string, extra: string, p: Parsers)
    requires Qualifies(line)
    ensures ParseLine(line + " " + extra, p) == ParseLine(line, p)
  {
    ExtendedLineQualifies(line, extra);
    var ts := Tokens(line);
    assert (ts + Tokens(extra))[..4] == ts[..4];
    FirstFourTokensDecide(line + " " + extra, line, p);
  }

  /** The lines that pass the test, in order: a subsequence of the lines
      holding each qualifying line as often as the lines do, and no other. */
  function Accepted(lines: seq<string>): (acc: seq<string>)
    ensures IsSubsequence(acc, lines)
    ensures forall x {:trigger multiset(acc)[x]} :: multiset(acc)[x] == (if Qualifies(x) then multiset(lines)[x] else 0)
    ensures forall i :: 0 <= i < |acc| ==> Qualifies(acc[i])
    ensures |acc| <= |lines|
  {
    if |lines| == 0 then []
    else
      assert lines == [lines[0]] + lines[1..];
      var rest := Accepted(lines[1..]);
      if Qualifies(lines[0]) then [lines[0]] + rest else rest
  }

  /** The lines a line parser does not skip, in order: a subsequence of the
      lines holding each unskipped line as often as the lines do, and no
      other. */
  function Kept(lines: seq<string>, parse: string -> LineOutcome): (kept: seq<string>)
    ensures IsSubsequence(kept, lines)
    ensures forall x {:trigger multiset(kept)[x]} :: multiset(kept)[x] == (if !parse(x).Skipped? then multiset(lines)[x] else 0)
  {
    if |lines| == 0 then []
    else
      assert lines == [lines[0]] + lines[1..];
      var rest := Kept(lines[1..], parse);
      if !parse(lines[0]).Skipped? then [lines[0]] + rest else rest
  }

  /** The line loop, for any per-line parser. A row is appended for each line
      the parser does not skip, in line order; the first line whose parse
      raises aborts the whole loop with that line's error, and the rows
      gathered so far are lost. */
  function ExtractLines(lines: seq<string>, parse: string -> LineOutcome): (r: Result<seq<Row>, ExtractError>)
    ensures r.Success? <==> forall i :: 0 <= i < |lines| ==> !parse(lines[i]).Failed?
    ensures r.Success? ==>
      && |r.value| == |Kept(lines, parse)|
      && forall i :: 0 <= i < |r.value| ==> parse(Kept(lines, parse)[i]) == Parsed(r.value[i])
    ensures r.Failure? ==>
      exists i :: 0 <= i < |lines| && parse(lines[i]) == Failed(r.error)
        && forall j :: 0 <= j < i ==> !parse(lines[j]).Failed?
  {
    if |lines| == 0 then Success([])
    else
      var tail := ExtractLines(lines[1..], parse);
      assert forall i :: 1 <= i < |lines| ==> lines[1..][i - 1] == lines[i];
      match parse(lines[0])
      case Failed(e) => Failure(e)
      case Skipped =>
        if tail.Failure? then
          var i :| 0 <= i < |lines[1..]| && parse(lines[1..][i]) == Failed(tail.error)
            && forall j :: 0 <= j < i ==> !parse(lines[1..][j]).Failed?;
          assert parse(lines[i + 1]) == Failed(tail.error);
          tail
        else tail
      case Parsed(row) =>
        match tail
        case Failure(e) =>
          var i :| 0 <= i < |lines[1..]| && parse(lines[1..][i]) == Failed(e)
            && forall j :: 0 <= j < i ==> !parse(lines[1..][j]).Failed?;
          assert parse(lines[i + 1]) == Failed(e);
          Failure(e)
        case Success(rows) =>
          Success([row] + rows)
  }

  /** `ParseLine` with its parsers fixed, as the line loop takes it. */
  function LineParser(p: Parsers): string -> LineOutcome {
    line => ParseLine(line, p)
  }

  /** The lines `ParseLine` keeps are the accepted ones. */
  lemma {:induction false} KeptAreAccepted(lines: seq<string>, p: Parsers)
    ensures Kept(lines, LineParser(p)) == Accepted(lines)
  {
    if |lines| > 0 {
      KeptAreAccepted(lines[1..], p);
      assert LineParser(p)(lines[0]).Skipped? <==> !Qualifies(lines[0]);
    }
  }

  /** The whole parser from the concatenated page text: split on newlines,
      then run the line loop with `ParseLine`. */
  function ExtractText(text: string, p: Parsers): (r: Result<seq<Row>, ExtractError>)
  {
    ExtractLines(Split(text, '\n'), LineParser(p))
  }

  /** Over the lines of the text: extraction succeeds exactly when no line
      raises; then it yields one row per accepted line, in line order, each
      the row `ParseLine` makes of that line; otherwise the error is that of
      the first line that raises. */
  lemma {:induction false} ExtractTextRows(text: string, p: Parsers)
    ensures var lines := Split(text, '\n'); var r := ExtractText(text, p);
      && (r.Success? <==> forall i :: 0 <= i < |lines| ==> !ParseLine(lines[i], p).Failed?)
      && (r.Success? ==>
           && |r.value| == |Accepted(lines)| <= Count(text, '\n') + 1
           && forall i :: 0 <= i < |r.value| ==> ParseLine(Accepted(lines)[i], p) == Parsed(r.value[i]))
      && (r.Failure? ==>
           exists i :: 0 <= i < |lines| && ParseLine(lines[i], p) == Failed(r.error)
             && forall j :: 0 <= j < i ==> !ParseLine(lines[j], p).Failed?)
  {
    var lines := Split(text, '\n');
    KeptAreAccepted(lines, p);
    var r := ExtractText(text, p);
    if r.Failure? {
      var i :| 0 <= i < |lines| && LineParser(p)(lines[i]) == Failed(r.error)
        && forall j :: 0 <= j < i ==> !LineParser(p)(lines[j]).Failed?;
      assert ParseLine(lines[i], p) == Failed(r.error);
    }
  }

  /** A text assembled from newline-free lines is parsed line by line. */
  lemma {:induction false} ExtractJoinedLines(lines: seq<string>, p: Parsers)
    requires |lines| > 0
    requires forall i :: 0 <= i < |lines| ==> '\n' !in lines[i]
    ensures ExtractText(Join(lines, '\n'), p) == ExtractLines(lines, LineParser(p))
  {
    SplitJoin(lines, '\n');
  }
}
