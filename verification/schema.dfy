/** The shape of the data the dashboard works on: one extracted revenue row,
    the optional-value and value-or-error wrappers, the errors the extractor
    can raise, and the subsequence relation the row filters keep.
 */
module Schema {

  /** A value that may be missing: the result of a parser that can reject
      its input. */
  datatype Option<+T> = None | Some(value: T)

  /** A value or the error that stopped its computation. */
  datatype Result<+T, +E> = Success(value: T) | Failure(error: E)

  /** `a` is `b` with some elements left out, the rest in their order. */
  predicate IsSubsequence<T(==)>(a: seq<T>, b: seq<T>)
    decreases |b|
  {
    if |a| == 0 then true
    else if |b| == 0 then false
    else (a[0] == b[0] && IsSubsequence(a[1..], b[1..])) || IsSubsequence(a, b[1..])
  }

  lemma {:induction false} SubsequenceReflexive<T>(a: seq<T>)
    ensures IsSubsequence(a, a)
  {
    if |a| > 0 {
      SubsequenceReflexive(a[1..]);
    }
  }

  /** A subsequence holds no element more often than the sequence. */
  lemma {:induction false} SubsequenceMultiset<T>(a: seq<T>, b: seq<T>)
    requires IsSubsequence(a, b)
    ensures multiset(a) <= multiset(b)
    decreases |b|
  {
    if |a| > 0 {
      assert b == [b[0]] + b[1..];
      if a[0] == b[0] && IsSubsequence(a[1..], b[1..]) {
        SubsequenceMultiset(a[1..], b[1..]);
        assert a == [a[0]] + a[1..];
      } else {
        SubsequenceMultiset(a, b[1..]);
      }
    }
  }

  /** A subsequence is no longer than the sequence. */
  lemma {:induction false} SubsequenceLengths<T>(a: seq<T>, b: seq<T>)
    requires IsSubsequence(a, b)
    ensures |a| <= |b|
    decreases |b|
  {
    if |a| > 0 {
      if a[0] == b[0] && IsSubsequence(a[1..], b[1..]) {
        SubsequenceLengths(a[1..], b[1..]);
      } else {
        SubsequenceLengths(a, b[1..]);
      }
    }
  }

  /** A subsequence as long as the sequence is the sequence. */
  lemma {:induction false} SubsequenceFull<T>(a: seq<T>, b: seq<T>)
    requires IsSubsequence(a, b)
    requires |a| == |b|
    ensures a == b
    decreases |b|
  {
    if |a| > 0 {
      if a[0] == b[0] && IsSubsequence(a[1..], b[1..]) {
        SubsequenceFull(a[1..], b[1..]);
      } else {
        SubsequenceLengths(a, b[1..]);
        assert false;
      }
    }
  }

  /** One row of the revenue table (one dictionary appended by the extractor).
      `ano` and `mes` are kept as text, as the dashboard converts both columns
      to strings before it filters or groups on them. */
  datatype Row = Row(
    ano: string,          // "Ano"
    mes: string,          // "Mês"
    faturamento: real,    // "Faturamento"
    comandas: int,        // "Comandas"
    ticket: real          // "Ticket Médio"
  )

  /** The two number parsers the extractor relies on (Python's `float` and
      `int`), as partial functions. `float` is given the cleaned revenue and
      ticket tokens; `int` is given the count token as it stands, with no `.`
      removed. `None` stands for the `ValueError` the parser raises. */
  datatype Parsers = Parsers(
    toFloat: string -> Option<real>,
    toInt: string -> Option<int>
  )

  /** The exceptions that abort the extraction of a file. */
  datatype ExtractError =
    | DateUnpack(date: string)      // `ano, mes = data.split("/")` without exactly two parts
    | NotAFloat(token: string)      // `float(...)` rejected the normalised token
    | NotAnInt(token: string)       // `int(...)` rejected the token
}
