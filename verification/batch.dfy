/** The upload loop: every uploaded file is run through the extractor in
    upload order, and the per-file tables are concatenated into one
    (`pd.concat(dfs, ignore_index=True)`).
 */
module Batch {
  import opened Schema
  import opened Text
  import opened Extract

  /** The number of rows over all batches. */
  function TotalRows(batches: seq<seq<Row>>): nat {
    if |batches| == 0 then 0 else |batches[0]| + TotalRows(batches[1..])
  }

  /** The concatenation of the batches, file after file. */
  function Merge(batches: seq<seq<Row>>): (table: seq<Row>)
    ensures |table| == TotalRows(batches)
  {
    if |batches| == 0 then [] else batches[0] + Merge(batches[1..])
  }

  /** Merging two runs of batches is merging each and concatenating. */
  lemma {:induction false} MergeAppend(a: seq<seq<Row>>, b: seq<seq<Row>>)
    ensures Merge(a + b) == Merge(a) + Merge(b)
    ensures TotalRows(a + b) == TotalRows(a) + TotalRows(b)
  {
    if |a| == 0 {
      assert a + b == b;
    } else {
      assert (a + b)[0] == a[0];
      assert (a + b)[1..] == a[1..] + b;
      MergeAppend(a[1..], b);
    }
  }

  /** Row `j` of batch `i` sits in the merged table right after all rows of
      the batches before it: file-then-row order. */
  lemma {:induction false} MergeIndex(batches: seq<seq<Row>>, i: nat, j: nat)
    requires i < |batches| && j < |batches[i]|
    ensures TotalRows(batches[..i]) + j < |Merge(batches)|
    ensures Merge(batches)[TotalRows(batches[..i]) + j] == batches[i][j]
  {
    if i == 0 {
      assert batches[..0] == [];
    } else {
      var rest := batches[1..];
      assert batches[..i][0] == batches[0];
      assert batches[..i][1..] == rest[..i - 1];
      MergeIndex(rest, i - 1, j);
    }
  }

  /** What the upload step leaves behind: no table when nothing was
      uploaded, the merged table, or the error of the file that aborted. */
  datatype Upload = NothingUploaded | Extracted(table: seq<Row>) | Aborted(error: ExtractError)

  /** The per-file loop, for any per-file extractor: the first file that
      raises aborts the loop with its error; otherwise each file contributes
      its own batch, in upload order. */
  function ExtractAll(files: seq<string>, extract: string -> Result<seq<Row>, ExtractError>)
    : (r: Result<seq<seq<Row>>, ExtractError>)
    ensures r.Success? <==> forall i :: 0 <= i < |files| ==> extract(files[i]).Success?
    ensures r.Success? ==>
      && |r.value| == |files|
      && forall i :: 0 <= i < |files| ==> extract(files[i]) == Success(r.value[i])
    ensures r.Failure? ==>
      exists i :: 0 <= i < |files| && extract(files[i]) == Failure(r.error)
        && forall j :: 0 <= j < i ==> extract(files[j]).Success?
  {
    if |files| == 0 then Success([])
    else
      var rest := ExtractAll(files[1..], extract);
      assert forall i :: 1 <= i < |files| ==> files[1..][i - 1] == files[i];
      match extract(files[0])
      case Failure(e) => Failure(e)
      case Success(rows) =>
        match rest
        case Failure(e) =>
          var i :| 0 <= i < |files[1..]| && extract(files[1..][i]) == Failure(e)
            && forall j :: 0 <= j < i ==> extract(files[1..][j]).Success?;
          assert extract(files[i + 1]) == Failure(e);
          Failure(e)
        case Success(batches) => Success([rows] + batches)
  }

  /** The upload step, for any per-file extractor: nothing happens when no
      file was uploaded; otherwise the per-file loop runs and its batches are
      merged, or the first file that raises aborts the upload. */
  function ReadUploads(files: seq<string>, extract: string -> Result<seq<Row>, ExtractError>)
    : (u: Upload)
    ensures u.NothingUploaded? <==> |files| == 0
    ensures u.Extracted? <==>
      |files| > 0 && forall i :: 0 <= i < |files| ==> extract(files[i]).Success?
    ensures u.Aborted? ==>
      exists i :: 0 <= i < |files| && extract(files[i]) == Failure(u.error)
        && forall j :: 0 <= j < i ==> extract(files[j]).Success?
  {
    if |files| == 0 then NothingUploaded
    else
      match ExtractAll(files, extract)
      case Failure(e) => Aborted(e)
      case Success(batches) => Extracted(Merge(batches))
  }

  /** The merged table holds every file's rows, file after file: its length
      is the sum of the files' row counts, and row `j` of file `i` follows
      the rows of all earlier files. */
  lemma UploadKeepsOrder(files: seq<string>, extract: string -> Result<seq<Row>, ExtractError>, i: nat, j: nat)
    requires ReadUploads(files, extract).Extracted?
    requires i < |files|
    ensures var batches := ExtractAll(files, extract).value;
      && |batches| == |files|
      && extract(files[i]) == Success(batches[i])
      && |ReadUploads(files, extract).table| == TotalRows(batches)
      && (j < |batches[i]| ==>
           && TotalRows(batches[..i]) + j < |ReadUploads(files, extract).table|
           && ReadUploads(files, extract).table[TotalRows(batches[..i]) + j] == batches[i][j])
  {
    var batches := ExtractAll(files, extract).value;
    if j < |batches[i]| {
      MergeIndex(batches, i, j);
    }
  }

  /** The PDF extractor with its parsers fixed, as the upload loop runs it. */
  function FileExtractor(p: Parsers): string -> Result<seq<Row>, ExtractError> {
    text => ExtractText(text, p)
  }

  /** No line of a file's text raises when parsed. */
  predicate NoLineRaises(text: string, p: Parsers) {
    forall k :: 0 <= k < |Split(text, '\n')| ==> !ParseLine(Split(text, '\n')[k], p).Failed?
  }

  /** Uploading PDF texts yields a table exactly when some file was uploaded
      and no line of any file raises. */
  lemma UploadSucceedsIff(files: seq<string>, p: Parsers)
    ensures ReadUploads(files, FileExtractor(p)).Extracted? <==>
      |files| > 0 && forall i :: 0 <= i < |files| ==> NoLineRaises(files[i], p)
  {
  }

  /** In an uploaded table, the rows of file `i` come right after those of
      the earlier files, one per accepted line of that file, in line order,
      each the row `ParseLine` makes of its line. */
  lemma UploadedPdfRows(files: seq<string>, p: Parsers, i: nat, j: nat)
    requires ReadUploads(files, FileExtractor(p)).Extracted?
    requires i < |files|
    ensures var acc := Accepted(Split(files[i], '\n'));
      var batches := ExtractAll(files, FileExtractor(p)).value;
      var table := ReadUploads(files, FileExtractor(p)).table;
      && |batches| == |files|
      && |batches[i]| == |acc|
      && (j < |acc| ==>
           && TotalRows(batches[..i]) + j < |table|
           && ParseLine(acc[j], p) == Parsed(table[TotalRows(batches[..i]) + j]))
  {
    UploadKeepsOrder(files, FileExtractor(p), i, j);
    ExtractTextRows(files[i], p);
  }
}
