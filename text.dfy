/** The .NET string operations the contract code relies on: Trim, IndexOf, ordinal and
    ordinal-ignore-case containment, string.Join, StringBuilder.AppendLine and the decimal
    formatting of an int. Their facts are stated as ensures clauses or as lemmas beside them,
    and Join, Unlines and the decimal formatting each get an inverse (Split, ParseInt) with a
    round-trip lemma. */
module Text {
  import opened Wrappers

  /** Environment.NewLine, taken to be the Unix line feed. */
  const NewLine: string := "\n"

  /** Char.IsWhiteSpace: the control whitespace U+0009..U+000D, the space, U+0085, U+00A0 and
      the Unicode space, line and paragraph separators. */
  predicate IsWhiteSpace(c: char)
  {
    ('\t' <= c <= '\r') || c == ' ' || c == '\U{0085}' || c == '\U{00A0}' || c == '\U{1680}'
    || ('\U{2000}' <= c <= '\U{200A}') || c == '\U{2028}' || c == '\U{2029}'
    || c == '\U{202F}' || c == '\U{205F}' || c == '\U{3000}'
  }

  /** string.TrimStart(): the suffix left after dropping all leading whitespace. */
  function TrimStart(s: string): (r: string)
    ensures |r| <= |s| && r == s[|s| - |r|..]
    ensures r == [] || !IsWhiteSpace(r[0])
    ensures forall k :: 0 <= k < |s| - |r| ==> IsWhiteSpace(s[k])
  {
    if s != [] && IsWhiteSpace(s[0]) then TrimStart(s[1..]) else s
  }

  /** string.TrimEnd(): the prefix left after dropping all trailing whitespace. */
  function TrimEnd(s: string): (r: string)
    ensures |r| <= |s| && r == s[..|r|]
    ensures r == [] || !IsWhiteSpace(r[|r| - 1])
    ensures forall k :: |r| <= k < |s| ==> IsWhiteSpace(s[k])
  {
    if s != [] && IsWhiteSpace(s[|s| - 1]) then TrimEnd(s[..|s| - 1]) else s
  }

  /** string.Trim(): the slice of `s` between its leading and its trailing whitespace. */
  function Trim(s: string): (r: string)
    ensures r == [] || (!IsWhiteSpace(r[0]) && !IsWhiteSpace(r[|r| - 1]))
    ensures var lead := |s| - |TrimStart(s)|;
      && lead + |r| <= |s|
      && r == s[lead..lead + |r|]
      && (forall k :: 0 <= k < lead ==> IsWhiteSpace(s[k]))
      && (forall k :: lead + |r| <= k < |s| ==> IsWhiteSpace(s[k]))
  {
    TrimEnd(TrimStart(s))
  }

  /** A string that neither starts nor ends with whitespace is its own trim. */
  lemma TrimUnchanged(s: string)
    requires s == [] || (!IsWhiteSpace(s[0]) && !IsWhiteSpace(s[|s| - 1]))
    ensures Trim(s) == s
  {
  }

  /** string.IndexOf(char): the first position of `c`, or -1 when `c` does not occur. */
  function IndexOf(s: string, c: char): (r: int)
    ensures -1 <= r < |s|
    ensures r == -1 <==> c !in s
    ensures r >= 0 ==> s[r] == c && c !in s[..r]
  {
    if s == [] then -1
    else if s[0] == c then 0
    else
      var i := IndexOf(s[1..], c);
      assert s[1..][..i + 1] == s[1..i + 2] by { if i >= 0 { assert s[1..][..i + 1] == s[1..][..i] + [s[1..][i]]; } }
      if i == -1 then -1 else i + 1
  }

  /** The first `c` in `a + [c] + b` is the one just after `a` when `a` holds none. */
  lemma IndexOfAfter(a: string, c: char, b: string)
    requires c !in a
    ensures IndexOf(a + [c] + b, c) == |a|
  {
    var s := a + [c] + b;
    assert s[..|a|] == a;
    assert s[|a|] == c;
  }

  /** A string is its part before position k, the character at k, and its part after k. */
  lemma SliceAround(s: string, k: nat)
    requires k < |s|
    ensures s == s[..k] + [s[k]] + s[k + 1..]
  {
  }

  /** `value` occurs in `text` at position `i`. */
  predicate OccursAt(text: string, value: string, i: nat)
  {
    i + |value| <= |text| && text[i..i + |value|] == value
  }

  /** string.Contains(value, StringComparison.Ordinal): `value` occurs somewhere in `text`
      (the empty string occurs in every text). */
  predicate Contains(text: string, value: string)
  {
    exists i: nat :: i <= |text| - |value| && OccursAt(text, value, i)
  }

  /** An occurrence in a part is an occurrence in the whole. */
  lemma ContainsInConcat(a: string, b: string, value: string)
    requires Contains(a, value) || Contains(b, value)
    ensures Contains(a + b, value)
  {
    if Contains(a, value) {
      var i: nat :| i <= |a| - |value| && OccursAt(a, value, i);
      assert (a + b)[i..i + |value|] == a[i..i + |value|];
      assert OccursAt(a + b, value, i);
    } else {
      var i: nat :| i <= |b| - |value| && OccursAt(b, value, i);
      assert (a + b)[|a| + i..|a| + i + |value|] == b[i..i + |value|];
      assert OccursAt(a + b, value, |a| + i);
    }
  }

  /** An occurrence inside an occurring piece is an occurrence in the whole. */
  lemma ContainsTransitive(text: string, piece: string, value: string)
    requires Contains(text, piece) && Contains(piece, value)
    ensures Contains(text, value)
  {
    var i: nat :| i <= |text| - |piece| && OccursAt(text, piece, i);
    var j: nat :| j <= |piece| - |value| && OccursAt(piece, value, j);
    forall k | 0 <= k < |value|
      ensures text[i + j..i + j + |value|][k] == value[k]
    {
      assert text[i + j + k] == text[i..i + |piece|][j + k] == piece[j + k];
      assert piece[j..j + |value|][k] == value[k];
    }
    assert text[i + j..i + j + |value|] == value;
    assert OccursAt(text, value, i + j);
  }

  /** Every string occurs in itself. */
  lemma ContainsSelf(s: string)
    ensures Contains(s, s)
  {
    assert OccursAt(s, s, 0);
  }

  /** The upper-case mapping that OrdinalIgnoreCase applies, restricted to ASCII letters. */
  function ToUpperAscii(c: char): char
  {
    if 'a' <= c <= 'z' then (c as int - 32) as char else c
  }

  function FoldCase(s: string): string
  {
    seq(|s|, k requires 0 <= k < |s| => ToUpperAscii(s[k]))
  }

  /** string.Contains(value, StringComparison.OrdinalIgnoreCase): containment after folding
      both strings to upper case. */
  predicate ContainsIgnoreCase(text: string, value: string)
  {
    Contains(FoldCase(text), FoldCase(value))
  }

  /** An ordinal hit is also an ordinal-ignore-case hit. */
  lemma ContainsImpliesContainsIgnoreCase(text: string, value: string)
    requires Contains(text, value)
    ensures ContainsIgnoreCase(text, value)
  {
    var i: nat :| i <= |text| - |value| && OccursAt(text, value, i);
    var ft, fv := FoldCase(text), FoldCase(value);
    forall k | 0 <= k < |value|
      ensures ft[i..i + |value|][k] == fv[k]
    {
      assert text[i..i + |value|][k] == value[k];
    }
    assert ft[i..i + |value|] == fv;
    assert OccursAt(ft, fv, i);
  }

  /** string.Join(separator, values). */
  function Join(sep: string, xs: seq<string>): string
  {
    if |xs| == 0 then ""
    else if |xs| == 1 then xs[0]
    else xs[0] + sep + Join(sep, xs[1..])
  }

  /** Every joined value occurs in the joined string. */
  lemma {:induction false} JoinContainsEach(sep: string, xs: seq<string>, i: nat)
    requires i < |xs|
    ensures Contains(Join(sep, xs), xs[i])
  {
    if |xs| == 1 {
      ContainsSelf(xs[0]);
    } else if i == 0 {
      ContainsSelf(xs[0]);
      ContainsInConcat(xs[0], sep + Join(sep, xs[1..]), xs[0]);
      assert xs[0] + sep + Join(sep, xs[1..]) == xs[0] + (sep + Join(sep, xs[1..]));
    } else {
      JoinContainsEach(sep, xs[1..], i - 1);
      ContainsInConcat(xs[0] + sep, Join(sep, xs[1..]), xs[i]);
    }
  }

  /** string.Split(char): the pieces between the occurrences of `c`. */
  function Split(s: string, c: char): (r: seq<string>)
    ensures |r| >= 1
    decreases |s|
  {
    var i := IndexOf(s, c);
    if i == -1 then [s] else [s[..i]] + Split(s[i + 1..], c)
  }

  /** Splitting a piece free of `c`, then `c`, then more text. */
  lemma SplitCons(piece: string, c: char, tail: string)
    requires c !in piece
    ensures Split(piece + [c] + tail, c) == [piece] + Split(tail, c)
  {
    var s := piece + [c] + tail;
    IndexOfAfter(piece, c, tail);
    assert s[..|piece|] == piece;
    assert s[|piece| + 1..] == tail;
  }

  /** Split undoes Join when no piece holds the separator character. */
  lemma {:induction false} SplitJoin(xs: seq<string>, c: char)
    requires |xs| >= 1
    requires forall k :: 0 <= k < |xs| ==> c !in xs[k]
    ensures Split(Join([c], xs), c) == xs
  {
    if |xs| > 1 {
      SplitCons(xs[0], c, Join([c], xs[1..]));
      SplitJoin(xs[1..], c);
      assert xs == [xs[0]] + xs[1..];
    }
  }

  /** What a StringBuilder holds after AppendLine of each of `lines` in turn. */
  function Unlines(lines: seq<string>): string
  {
    if |lines| == 0 then "" else Unlines(lines[..|lines| - 1]) + lines[|lines| - 1] + NewLine
  }

  lemma {:induction false} UnlinesAppend(a: seq<string>, b: seq<string>)
    ensures Unlines(a + b) == Unlines(a) + Unlines(b)
    decreases |b|
  {
    if |b| > 0 {
      var b' := b[..|b| - 1];
      assert (a + b)[..|a + b| - 1] == a + b';
      UnlinesAppend(a, b');
    } else {
      assert a + b == a;
    }
  }

  /** The text after one more AppendLine. */
  lemma UnlinesSnoc(lines: seq<string>, line: string)
    ensures Unlines(lines + [line]) == Unlines(lines) + line + NewLine
  {
    assert (lines + [line])[..|lines|] == lines;
  }

  /** The text of a line followed by more lines. */
  lemma UnlinesCons(line: string, rest: seq<string>)
    ensures Unlines([line] + rest) == line + ['\n'] + Unlines(rest)
  {
    UnlinesAppend([line], rest);
    assert [line][..0] == [];
  }

  /** Extending a prefix by one element, after some fixed leading elements. */
  lemma PrefixSnoc<T>(done: seq<T>, s: seq<T>, j: nat)
    requires j < |s|
    ensures done + s[..j + 1] == (done + s[..j]) + [s[j]]
  {
    assert s[..j + 1] == s[..j] + [s[j]];
  }

  lemma SeqAssoc<T>(a: seq<T>, b: seq<T>, c: seq<T>)
    ensures a + (b + c) == (a + b) + c
  {
  }

  /** Indexing past two leading parts: a negative i counts back into the middle part. */
  lemma IndexAfterTwo<T>(a: seq<T>, b: seq<T>, c: seq<T>, i: int)
    requires -|b| <= i < |c|
    ensures |a + (b + c)| == |a| + |b| + |c|
    ensures (a + (b + c))[|a| + |b| + i] == if i >= 0 then c[i] else b[|b| + i]
  {
  }

  /** No line holds a line feed. */
  predicate NoLineFeeds(lines: seq<string>)
  {
    forall k :: 0 <= k < |lines| ==> '\n' !in lines[k]
  }

  lemma NoLineFeedsAppend(a: seq<string>, b: seq<string>)
    requires NoLineFeeds(a) && NoLineFeeds(b)
    ensures NoLineFeeds(a + b)
  {
    forall k | 0 <= k < |a + b|
      ensures '\n' !in (a + b)[k]
    {
      if k >= |a| {
        assert (a + b)[k] == b[k - |a|];
      }
    }
  }

  /** Splitting the built text at line feeds gives back the lines, plus the empty piece after
      the final line feed, when no line holds a line feed itself. */
  lemma {:induction false} SplitUnlines(lines: seq<string>)
    requires NoLineFeeds(lines)
    ensures Split(Unlines(lines), '\n') == lines + [""]
  {
    if |lines| == 0 {
      assert Unlines(lines) == "";
    } else {
      var line, rest := lines[0], lines[1..];
      assert [line] + rest == lines;
      UnlinesCons(line, rest);
      SplitCons(line, '\n', Unlines(rest));
      assert forall k :: 0 <= k < |rest| ==> '\n' !in rest[k] by {
        forall k | 0 <= k < |rest| ensures '\n' !in rest[k] { assert rest[k] == lines[k + 1]; }
      }
      SplitUnlines(rest);
      calc {
        Split(Unlines(lines), '\n');
        Split(line + ['\n'] + Unlines(rest), '\n');
        [line] + Split(Unlines(rest), '\n');
        [line] + (rest + [""]);
        { SeqAssoc([line], rest, [""]); }
        ([line] + rest) + [""];
      }
    }
  }

  predicate IsDigit(c: char)
  {
    '0' <= c <= '9'
  }

  predicate AllDigits(s: string)
  {
    forall k :: 0 <= k < |s| ==> IsDigit(s[k])
  }

  function DigitChar(d: nat): char
    requires d < 10
  {
    ('0' as int + d) as char
  }

  /** The decimal digits of `n`, most significant first, with no leading zero. */
  function NatToString(n: nat): (r: string)
    ensures |r| >= 1 && AllDigits(r)
  {
    if n < 10 then [DigitChar(n)] else NatToString(n / 10) + [DigitChar(n % 10)]
  }

  /** int.ToString() under the invariant culture: a minus sign for negatives, then the digits. */
  function IntToString(n: int): string
  {
    if n < 0 then "-" + NatToString(-n) else NatToString(n)
  }

  /** The decimal text of an integer holds only a minus sign and digits: no space, no line feed. */
  lemma IntToStringNoSeparators(n: int)
    ensures ' ' !in IntToString(n) && '\n' !in IntToString(n) && ']' !in IntToString(n)
  {
    var digits := NatToString(if n < 0 then -n else n);
    assert AllDigits(digits);
    assert ' ' !in digits && '\n' !in digits && ']' !in digits;
  }

  /** The value of a string of decimal digits. */
  function ParseDigits(s: string): nat
    requires AllDigits(s)
  {
    if s == [] then 0 else ParseDigits(s[..|s| - 1]) * 10 + (s[|s| - 1] as int - '0' as int)
  }

  /** int.Parse for the strings IntToString produces: an optional minus sign, then digits. */
  function ParseInt(s: string): Option<int>
  {
    if |s| >= 2 && s[0] == '-' && AllDigits(s[1..]) then Some(0 - ParseDigits(s[1..]) as int)
    else if |s| >= 1 && AllDigits(s) then Some(ParseDigits(s))
    else None
  }

  lemma {:induction false} ParseNatToString(n: nat)
    ensures ParseDigits(NatToString(n)) == n
  {
    if n >= 10 {
      var s := NatToString(n);
      assert s[..|s| - 1] == NatToString(n / 10);
      ParseNatToString(n / 10);
    }
  }

  /** Parsing the decimal text of an int gives the int back. */
  lemma IntToStringRoundTrip(n: int)
    ensures ParseInt(IntToString(n)) == Some(n)
  {
    if n < 0 {
      ParseNatToString(-n);
      assert IntToString(n)[1..] == NatToString(-n);
    } else {
      ParseNatToString(n);
    }
  }

  /** Distinct ints have distinct decimal texts. */
  lemma IntToStringInjective(a: int, b: int)
    ensures IntToString(a) == IntToString(b) <==> a == b
  {
    IntToStringRoundTrip(a);
    IntToStringRoundTrip(b);
  }
}
