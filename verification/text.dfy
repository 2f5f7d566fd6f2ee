/**
 * Text helpers for the Ruby string operations the browser relies on:
 * decimal rendering of integers ("#{n}"), String#split with a separator,
 * String#split on whitespace, Array#join, ASCII String#downcase and a
 * literal substring search (a regular expression without special characters).
 */
module TextUtil {

  predicate IsDigit(c: char) {
    '0' <= c <= '9'
  }

  predicate AllDigits(s: string) {
    forall i :: 0 <= i < |s| ==> IsDigit(s[i])
  }

  /** True when no character of `s` is in `seps`. */
  predicate Free(s: string, seps: set<char>) {
    forall i :: 0 <= i < |s| ==> s[i] !in seps
  }

  function DigitChar(d: nat): (c: char)
    requires d < 10
    ensures IsDigit(c)
  {
    (('0' as int) + d) as char
  }

  function DigitValue(c: char): (d: nat)
    requires IsDigit(c)
    ensures d < 10
  {
    (c as int) - ('0' as int)
  }

  /** Decimal rendering of a natural number, as Ruby's Integer#to_s. */
  function Show(n: nat): (r: string)
    ensures 1 <= |r| && AllDigits(r)
  {
    if n < 10 then [DigitChar(n)] else Show(n / 10) + [DigitChar(n % 10)]
  }

  /** Reads a string of decimal digits back as a number (the inverse of Show). */
  function ParseNat(s: string): nat
    requires AllDigits(s)
  {
    if |s| == 0 then 0 else ParseNat(s[..|s| - 1]) * 10 + DigitValue(s[|s| - 1])
  }

  lemma {:induction false} ParseShow(n: nat)
    ensures ParseNat(Show(n)) == n
  {
    if n >= 10 {
      var s := Show(n);
      assert s[..|s| - 1] == Show(n / 10);
      ParseShow(n / 10);
    }
  }

  lemma ShowInjective(a: nat, b: nat)
    requires Show(a) == Show(b)
    ensures a == b
  {
    ParseShow(a);
    ParseShow(b);
  }

  /** Splits `s` at every character in `seps`, keeping empty fields. */
  function SplitAll(s: string, seps: set<char>): (r: seq<string>)
    ensures 1 <= |r|
    ensures forall i :: 0 <= i < |r| ==> Free(r[i], seps)
  {
    if |s| == 0 then [""]
    else
      var rest := SplitAll(s[1..], seps);
      if s[0] in seps then [""] + rest else [[s[0]] + rest[0]] + rest[1..]
  }

  /** Removes the empty fields at the end, as Ruby's split does without a limit. */
  function DropTrailingEmpty(ts: seq<string>): (r: seq<string>)
    ensures |r| <= |ts| && r == ts[..|r|]
    ensures |r| == 0 || r[|r| - 1] != ""
    ensures forall i :: |r| <= i < |ts| ==> ts[i] == ""
  {
    if |ts| > 0 && ts[|ts| - 1] == "" then DropTrailingEmpty(ts[..|ts| - 1]) else ts
  }

  /** Ruby's String#split with a one-character separator. */
  function RubySplit(s: string, sep: char): (r: seq<string>)
    ensures forall i :: 0 <= i < |r| ==> Free(r[i], {sep})
    ensures |r| == 0 || r[|r| - 1] != ""
  {
    DropTrailingEmpty(SplitAll(s, {sep}))
  }

  /** Ruby's Array#join with a one-character separator. */
  function Join(ts: seq<string>, sep: char): string
  {
    if |ts| == 0 then ""
    else if |ts| == 1 then ts[0]
    else ts[0] + [sep] + Join(ts[1..], sep)
  }

  const Whitespace: set<char> := {' ', '\t', '\n', '\U{B}', '\U{C}', '\r'}

  function NonEmptyFields(ts: seq<string>): (r: seq<string>)
    ensures forall i :: 0 <= i < |r| ==> r[i] != ""
  {
    if |ts| == 0 then []
    else if ts[0] == "" then NonEmptyFields(ts[1..])
    else [ts[0]] + NonEmptyFields(ts[1..])
  }

  /** Ruby's String#split without arguments: runs of whitespace separate, and
      leading or trailing whitespace yields no field. */
  function Words(s: string): (r: seq<string>)
    ensures forall i :: 0 <= i < |r| ==> r[i] != "" && Free(r[i], Whitespace)
  {
    var all := SplitAll(s, Whitespace);
    var r := NonEmptyFields(all);
    assert forall i :: 0 <= i < |r| ==> r[i] in all by {
      NonEmptyFieldsFrom(all);
    }
    r
  }

  lemma {:induction false} NonEmptyFieldsFrom(ts: seq<string>)
    ensures forall i :: 0 <= i < |NonEmptyFields(ts)| ==> NonEmptyFields(ts)[i] in ts
  {
    if |ts| > 0 {
      NonEmptyFieldsFrom(ts[1..]);
    }
  }

  lemma {:induction false} SplitAllFree(x: string, seps: set<char>)
    requires Free(x, seps)
    ensures SplitAll(x, seps) == [x]
  {
    if |x| > 0 {
      assert Free(x[1..], seps);
      SplitAllFree(x[1..], seps);
      assert [x[0]] + x[1..] == x;
    }
  }

  lemma {:induction false} SplitAllAppend(x: string, c: char, y: string, seps: set<char>)
    requires Free(x, seps) && c in seps
    ensures SplitAll(x + [c] + y, seps) == [x] + SplitAll(y, seps)
  {
    var s := x + [c] + y;
    if |x| == 0 {
      assert s[1..] == y;
    } else {
      assert s[1..] == x[1..] + [c] + y;
      SplitAllAppend(x[1..], c, y, seps);
      assert [s[0]] + x[1..] == x;
    }
  }

  /** Splitting a joined list at its separator gives the list back. */
  lemma {:induction false} SplitJoin(ts: seq<string>, sep: char, seps: set<char>)
    requires 1 <= |ts| && sep in seps
    requires forall i :: 0 <= i < |ts| ==> Free(ts[i], seps)
    ensures SplitAll(Join(ts, sep), seps) == ts
  {
    if |ts| == 1 {
      SplitAllFree(ts[0], seps);
    } else {
      SplitJoin(ts[1..], sep, seps);
      SplitAllAppend(ts[0], sep, Join(ts[1..], sep), seps);
    }
  }

  /** Ruby's split undoes Array#join when no field holds the separator and the
      last field is not empty (split drops trailing empty fields). */
  lemma {:induction false} RubySplitJoin(ts: seq<string>, sep: char)
    requires forall i :: 0 <= i < |ts| ==> Free(ts[i], {sep})
    requires |ts| == 0 || ts[|ts| - 1] != ""
    ensures RubySplit(Join(ts, sep), sep) == ts
  {
    if |ts| == 0 {
      assert SplitAll("", {sep}) == [""];
      assert DropTrailingEmpty([""]) == DropTrailingEmpty([]);
    } else {
      SplitJoin(ts, sep, {sep});
    }
  }

  /** Three whitespace-free, non-empty tokens separated by single spaces split
      back into exactly those tokens. */
  lemma {:induction false} WordsOfThree(a: string, b: string, c: string)
    requires a != "" && b != "" && c != ""
    requires Free(a, Whitespace) && Free(b, Whitespace) && Free(c, Whitespace)
    ensures Words(a + " " + b + " " + c) == [a, b, c]
  {
    var ts := [a, b, c];
    assert Join(ts, ' ') == a + " " + b + " " + c by {
      assert Join(ts[1..], ' ') == b + " " + c by {
        assert ts[1..][1..] == [c];
      }
    }
    SplitJoin(ts, ' ', Whitespace);
    assert NonEmptyFields(ts) == [a, b, c] by {
      assert ts[1..] == [b, c] && ts[1..][1..] == [c] && [c][1..] == [];
      assert NonEmptyFields([c]) == [c];
      assert NonEmptyFields([b, c]) == [b, c];
    }
  }

  lemma {:induction false} NonEmptyFieldsAll(ts: seq<string>)
    requires forall i :: 0 <= i < |ts| ==> ts[i] != ""
    ensures NonEmptyFields(ts) == ts
  {
    if |ts| > 0 {
      NonEmptyFieldsAll(ts[1..]);
    }
  }

  /** Non-empty whitespace-free words joined by single spaces split back into
      exactly those words. */
  lemma {:induction false} WordsJoin(ts: seq<string>)
    requires 1 <= |ts|
    requires forall i :: 0 <= i < |ts| ==> ts[i] != "" && Free(ts[i], Whitespace)
    ensures Words(Join(ts, ' ')) == ts
  {
    SplitJoin(ts, ' ', Whitespace);
    NonEmptyFieldsAll(ts);
  }

  /** ASCII downcase, as Ruby's String#downcase on a binary string. */
  function Lower(s: string): (r: string)
    ensures |r| == |s|
    ensures forall i :: 0 <= i < |s| ==> r[i] == (if 'A' <= s[i] <= 'Z' then (s[i] as int + 32) as char else s[i])
  {
    seq(|s|, i requires 0 <= i < |s| => if 'A' <= s[i] <= 'Z' then (s[i] as int + 32) as char else s[i])
  }

  /** `needle` occurs in `hay` at some position. */
  predicate Contains(hay: string, needle: string) {
    exists i :: 0 <= i <= |hay| && needle <= hay[i..]
  }
}
