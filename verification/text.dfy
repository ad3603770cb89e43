/** The Python string operations the extractor is built from: `str.split(sep)`,
    `str.split()` with no argument, `str.replace`, `in`, `str.isspace` and
    `str.isdigit`, over strings as sequences of characters.
 */
module Text {

  /** Python's `str.isspace` for one character: the ASCII controls tab to
      carriage return, the four information separators, space, next line,
      no-break space and the Unicode space separators. */
  predicate IsSpace(c: char) {
    var n := c as int;
    || (9 <= n <= 13) || (28 <= n <= 32) || n == 0x85 || n == 0xA0 || n == 0x1680
    || (0x2000 <= n <= 0x200A) || n == 0x2028 || n == 0x2029 || n == 0x202F
    || n == 0x205F || n == 0x3000
  }

  /** A decimal digit (the ASCII digits only). */
  predicate IsDigit(c: char) {
    '0' <= c <= '9'
  }

  /** `any(c.isdigit() for c in s)` */
  predicate HasDigit(s: string) {
    exists i :: 0 <= i < |s| && IsDigit(s[i])
  }

  /** No whitespace character anywhere in `s`. */
  predicate NoSpace(s: string) {
    forall i :: 0 <= i < |s| ==> !IsSpace(s[i])
  }

  /** How many times `c` occurs in `s`. */
  function Count(s: string, c: char): nat {
    if |s| == 0 then 0 else (if s[0] == c then 1 else 0) + Count(s[1..], c)
  }

  /** `sep.join(parts)` for a one-character separator. */
  function Join(parts: seq<string>, sep: char): string {
    if |parts| == 0 then ""
    else if |parts| == 1 then parts[0]
    else parts[0] + [sep] + Join(parts[1..], sep)
  }

  /** Flattening of a sequence of strings, `"".join(parts)`. */
  function Concat(parts: seq<string>): string {
    if |parts| == 0 then "" else parts[0] + Concat(parts[1..])
  }

  /** `s.split(sep)`: the pieces between the occurrences of `sep`, empty pieces
      included, so there is always one piece more than there are separators. */
  function Split(s: string, sep: char): (parts: seq<string>)
    ensures |parts| == Count(s, sep) + 1
    ensures forall i :: 0 <= i < |parts| ==> sep !in parts[i]
  {
    if |s| == 0 then [""]
    else
      assert s == [s[0]] + s[1..];
      var rest := Split(s[1..], sep);
      if s[0] == sep then [""] + rest
      else [[s[0]] + rest[0]] + rest[1..]
  }

  /** Joining the pieces with the separator gives the string back. */
  lemma {:induction false} JoinSplit(s: string, sep: char)
    ensures Join(Split(s, sep), sep) == s
  {
    if |s| > 0 {
      JoinSplit(s[1..], sep);
      var rest := Split(s[1..], sep);
      assert s == [s[0]] + s[1..];
      if s[0] == sep {
        var parts := [""] + rest;
        assert Split(s, sep) == parts;
        assert parts[1..] == rest;
        assert Join(parts, sep) == "" + [sep] + Join(rest, sep);
      } else {
        var parts := [[s[0]] + rest[0]] + rest[1..];
        assert Split(s, sep) == parts;
        if |rest| == 1 {
          assert Join(parts, sep) == [s[0]] + rest[0];
        } else {
          assert parts[1..] == rest[1..];
          assert Join(rest, sep) == rest[0] + [sep] + Join(rest[1..], sep);
          assert Join(parts, sep) == [s[0]] + rest[0] + [sep] + Join(rest[1..], sep);
        }
      }
    }
  }

  /** Splitting a joined sequence of separator-free pieces gives the pieces back. */
  lemma {:induction false} SplitJoin(parts: seq<string>, sep: char)
    requires |parts| > 0
    requires forall i :: 0 <= i < |parts| ==> sep !in parts[i]
    ensures Split(Join(parts, sep), sep) == parts
  {
    if |parts| == 1 {
      SplitWithout(parts[0], sep);
    } else {
      SplitJoin(parts[1..], sep);
      SplitAfter(parts[0], sep, Join(parts[1..], sep));
    }
  }

  /** A string without the separator splits into itself alone. */
  lemma {:induction false} SplitWithout(s: string, sep: char)
    requires sep !in s
    ensures Split(s, sep) == [s]
  {
    if |s| > 0 {
      assert s[0] != sep && sep !in s[1..];
      SplitWithout(s[1..], sep);
      assert [s[0]] + s[1..] == s;
    }
  }

  /** The first piece of `p + sep + rest` is `p`, and the others those of `rest`. */
  lemma {:induction false} SplitAfter(p: string, sep: char, rest: string)
    requires sep !in p
    ensures Split(p + [sep] + rest, sep) == [p] + Split(rest, sep)
  {
    if |p| == 0 {
      assert p + [sep] + rest == [sep] + rest;
      assert ([sep] + rest)[1..] == rest;
    } else {
      var s := p + [sep] + rest;
      assert s[0] == p[0];
      assert s[1..] == p[1..] + [sep] + rest;
      SplitAfter(p[1..], sep, rest);
      assert [p[0]] + p[1..] == p;
    }
  }

  /** `s.replace(c, "")`: every occurrence of `c` deleted. */
  function RemoveChar(s: string, c: char): (r: string)
    ensures c !in r
    ensures |r| == |s| - Count(s, c)
  {
    if |s| == 0 then ""
    else
      assert s == [s[0]] + s[1..];
      if s[0] == c then RemoveChar(s[1..], c) else [s[0]] + RemoveChar(s[1..], c)
  }

  /** Deleting `c` leaves the number of any other character alone. */
  lemma {:induction false} RemoveCharCount(s: string, c: char, x: char)
    requires x != c
    ensures Count(RemoveChar(s, c), x) == Count(s, x)
  {
    if |s| > 0 {
      RemoveCharCount(s[1..], c, x);
      assert s == [s[0]] + s[1..];
    }
  }

  /** Deleting a character distributes over concatenation: what is kept
      stays in its order. */
  lemma {:induction false} RemoveCharConcat(a: string, b: string, c: char)
    ensures RemoveChar(a + b, c) == RemoveChar(a, c) + RemoveChar(b, c)
  {
    if |a| > 0 {
      assert (a + b)[0] == a[0];
      assert (a + b)[1..] == a[1..] + b;
      RemoveCharConcat(a[1..], b, c);
      if a[0] != c {
        assert RemoveChar(a + b, c) == [a[0]] + RemoveChar(a[1..] + b, c);
        assert RemoveChar(a, c) == [a[0]] + RemoveChar(a[1..], c);
      }
    } else {
      assert a + b == b;
    }
  }

  /** `s.replace(a, b)` for single characters: each `a` becomes `b`, all other
      characters stay where they are. */
  function ReplaceChar(s: string, a: char, b: char): (r: string)
    ensures |r| == |s|
    ensures forall i :: 0 <= i < |s| ==> r[i] == (if s[i] == a then b else s[i])
  {
    if |s| == 0 then ""
    else [if s[0] == a then b else s[0]] + ReplaceChar(s[1..], a, b)
  }

  /** Deleting a character that does not occur changes nothing. */
  lemma {:induction false} RemoveCharAbsent(s: string, c: char)
    requires c !in s
    ensures RemoveChar(s, c) == s
  {
    if |s| > 0 {
      RemoveCharAbsent(s[1..], c);
      assert s == [s[0]] + s[1..];
    }
  }

  /** After replacing `a` by `b`, the occurrences of `b` are the old ones plus
      the replaced ones. */
  lemma {:induction false} ReplaceCharCount(s: string, a: char, b: char)
    requires a != b
    ensures a !in ReplaceChar(s, a, b)
    ensures Count(ReplaceChar(s, a, b), b) == Count(s, a) + Count(s, b)
  {
    if |s| > 0 {
      ReplaceCharCount(s[1..], a, b);
      assert s == [s[0]] + s[1..];
      var r := ReplaceChar(s, a, b);
      assert r == [r[0]] + ReplaceChar(s[1..], a, b);
    }
  }

  /** Once `b` is deleted, replacing `a` by `b` first is the same as deleting
      `a` as well: every other character survives, in order. */
  lemma {:induction false} RemoveAfterReplace(s: string, a: char, b: char)
    ensures RemoveChar(ReplaceChar(s, a, b), b) == RemoveChar(RemoveChar(s, a), b)
  {
    if |s| > 0 {
      RemoveAfterReplace(s[1..], a, b);
      var r := ReplaceChar(s, a, b);
      assert r[1..] == ReplaceChar(s[1..], a, b);
    }
  }

  /** A character occurs in `s` exactly when its count is positive. */
  lemma {:induction false} CountZero(s: string, c: char)
    ensures Count(s, c) == 0 <==> c !in s
  {
    if |s| > 0 {
      CountZero(s[1..], c);
      assert s == [s[0]] + s[1..];
    }
  }

  /** Replacing a character that does not occur changes nothing. */
  lemma ReplaceCharAbsent(s: string, a: char, b: char)
    requires a !in s
    ensures ReplaceChar(s, a, b) == s
  {
  }

  /** The maximal run of non-whitespace characters at the start of `s`. */
  function LeadingWord(s: string): (w: string)
    ensures w <= s
    ensures NoSpace(w)
    ensures |w| < |s| ==> IsSpace(s[|w|])
  {
    if |s| == 0 || IsSpace(s[0]) then ""
    else [s[0]] + LeadingWord(s[1..])
  }

  /** The characters of `s` that are not whitespace, in order. */
  function DropSpaces(s: string): (r: string)
    ensures NoSpace(r)
  {
    if |s| == 0 then ""
    else if IsSpace(s[0]) then DropSpaces(s[1..])
    else [s[0]] + DropSpaces(s[1..])
  }

  lemma {:induction false} DropSpacesConcat(a: string, b: string)
    ensures DropSpaces(a + b) == DropSpaces(a) + DropSpaces(b)
  {
    if |a| > 0 {
      assert (a + b)[0] == a[0];
      assert (a + b)[1..] == a[1..] + b;
      DropSpacesConcat(a[1..], b);
      if !IsSpace(a[0]) {
        assert DropSpaces(a + b) == [a[0]] + DropSpaces(a[1..] + b);
        assert DropSpaces(a) == [a[0]] + DropSpaces(a[1..]);
      }
    } else {
      assert a + b == b;
    }
  }

  lemma {:induction false} DropSpacesNoSpace(s: string)
    requires NoSpace(s)
    ensures DropSpaces(s) == s
  {
    if |s| > 0 {
      DropSpacesNoSpace(s[1..]);
    }
  }

  /** `s.split()`: the maximal runs of non-whitespace characters, in order.
      Every token is non-empty and free of whitespace. */
  function Tokens(s: string): (ts: seq<string>)
    ensures forall i :: 0 <= i < |ts| ==> |ts[i]| > 0 && NoSpace(ts[i])
    decreases |s|
  {
    if |s| == 0 then []
    else if IsSpace(s[0]) then Tokens(s[1..])
    else
      var w := LeadingWord(s);
      [w] + Tokens(s[|w|..])
  }

  /** Together the tokens hold exactly the non-whitespace characters of `s`,
      in order. */
  lemma {:induction false} TokensKeepContent(s: string)
    ensures Concat(Tokens(s)) == DropSpaces(s)
    decreases |s|
  {
    if |s| > 0 {
      if IsSpace(s[0]) {
        TokensKeepContent(s[1..]);
      } else {
        var w := LeadingWord(s);
        var rest := s[|w|..];
        assert s == w + rest;
        DropSpacesConcat(w, rest);
        DropSpacesNoSpace(w);
        TokensKeepContent(rest);
      }
    }
  }

  /** A leading word ends at the first whitespace character. */
  lemma {:induction false} LeadingWordStops(a: string, c: char, b: string)
    requires IsSpace(c)
    ensures LeadingWord(a + [c] + b) == LeadingWord(a)
  {
    var s := a + [c] + b;
    if |a| == 0 {
      assert s[0] == c;
    } else if !IsSpace(a[0]) {
      assert s[0] == a[0];
      assert s[1..] == a[1..] + [c] + b;
      LeadingWordStops(a[1..], c, b);
    } else {
      assert s[0] == a[0];
    }
  }

  /** Whitespace between two strings separates their tokens. */
  lemma {:induction false} TokensConcat(a: string, c: char, b: string)
    requires IsSpace(c)
    ensures Tokens(a + [c] + b) == Tokens(a) + Tokens(b)
    decreases |a|
  {
    var s := a + [c] + b;
    if |a| == 0 {
      assert s == [c] + b;
      assert s[1..] == b;
    } else if IsSpace(a[0]) {
      assert s[0] == a[0];
      assert s[1..] == a[1..] + [c] + b;
      TokensConcat(a[1..], c, b);
    } else {
      assert s[0] == a[0];
      LeadingWordStops(a, c, b);
      var w := LeadingWord(a);
      assert s[|w|..] == a[|w|..] + [c] + b;
      TokensConcat(a[|w|..], c, b);
    }
  }

  /** A non-empty string without whitespace is one token. */
  lemma {:induction false} TokensOfWord(w: string)
    requires |w| > 0 && NoSpace(w)
    ensures Tokens(w) == [w]
  {
    assert LeadingWord(w) == w by { LeadingWordAll(w); }
    assert w[|w|..] == [];
  }

  lemma LeadingWordAll(w: string)
    requires NoSpace(w)
    ensures LeadingWord(w) == w
  {
  }

  /** Tokenising words joined by single spaces gives the words back: `split()`
      is the inverse of `" ".join` on non-empty, whitespace-free words. */
  lemma {:induction false} TokensJoin(ts: seq<string>)
    requires forall i :: 0 <= i < |ts| ==> |ts[i]| > 0 && NoSpace(ts[i])
    ensures Tokens(Join(ts, ' ')) == ts
  {
    if |ts| == 1 {
      TokensOfWord(ts[0]);
    } else if |ts| > 1 {
      TokensJoin(ts[1..]);
      TokensConcat(ts[0], ' ', Join(ts[1..], ' '));
      TokensOfWord(ts[0]);
    }
  }
}
