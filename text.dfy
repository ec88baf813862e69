/** String operations the roster extractor relies on: Python's `in` on strings,
    `str.strip()`, `str.upper()`, `' '.join(...)` and `str.replace(',', '')`. */
module Text {

  /** Python's `str.isspace()` on ASCII: space, \t \n \v \f \r and the
      separators 0x1C-0x1F. */
  predicate IsSpace(c: char) {
    c == ' ' || (9 <= c as int <= 13) || (28 <= c as int <= 31)
  }

  /** `sub` occurs in `s` starting at index `i`. */
  predicate OccursAt(s: string, sub: string, i: int) {
    0 <= i && i + |sub| <= |s| && s[i..i + |sub|] == sub
  }

  /** Python's `sub in s`. */
  predicate Contains(s: string, sub: string) {
    exists i | 0 <= i <= |s| :: OccursAt(s, sub, i)
  }

  lemma ContainsWitness(s: string, sub: string, i: int)
    requires OccursAt(s, sub, i)
    ensures Contains(s, sub)
  {
  }

  /** The middle part of a concatenation occurs in it, right after the first part. */
  lemma ContainsMiddle(a: string, b: string, c: string)
    ensures OccursAt(a + b + c, b, |a|) && Contains(a + b + c, b)
  {
    assert (a + b + c)[|a|..|a| + |b|] == b;
    ContainsWitness(a + b + c, b, |a|);
  }

  /** A string that lacks one of the characters of `sub` cannot contain `sub`. */
  lemma MissingCharNotContained(s: string, sub: string, c: char)
    requires c in sub && c !in s
    ensures !Contains(s, sub)
  {
    forall i | 0 <= i <= |s| ensures !OccursAt(s, sub, i) {
      if i + |sub| <= |s| {
        var k :| 0 <= k < |sub| && sub[k] == c;
        assert s[i..i + |sub|][k] == s[i + k] != c;
      }
    }
  }

  /** The first index at or after `i` that holds no whitespace, `|s|` when
      there is none. */
  function SkipSpaces(s: string, i: nat): (j: nat)
    requires i <= |s|
    ensures i <= j <= |s|
    ensures forall k | i <= k < j :: IsSpace(s[k])
    ensures j == |s| || !IsSpace(s[j])
    decreases |s| - i
  {
    if i < |s| && IsSpace(s[i]) then SkipSpaces(s, i + 1) else i
  }

  /** The end of `s[lo..e]` once its trailing whitespace is dropped. */
  function DropTrailingSpaces(s: string, lo: nat, e: nat): (j: nat)
    requires lo <= e <= |s|
    ensures lo <= j <= e
    ensures forall k | j <= k < e :: IsSpace(s[k])
    ensures j == lo || !IsSpace(s[j - 1])
  {
    if e > lo && IsSpace(s[e - 1]) then DropTrailingSpaces(s, lo, e - 1) else e
  }

  /** Python's `str.strip()`: a slice of `s` that neither starts nor ends
      with whitespace, everything cut off on either side being whitespace. */
  function Strip(s: string): (r: string)
    ensures exists i | 0 <= i <= |s| - |r| ::
      OccursAt(s, r, i) &&
      (forall k | 0 <= k < i :: IsSpace(s[k])) &&
      (forall k | i + |r| <= k < |s| :: IsSpace(s[k]))
    ensures r == [] || (!IsSpace(r[0]) && !IsSpace(r[|r| - 1]))
    ensures r == [] <==> forall k | 0 <= k < |s| :: IsSpace(s[k])
  {
    var i := SkipSpaces(s, 0);
    var j := DropTrailingSpaces(s, i, |s|);
    assert OccursAt(s, s[i..j], i);
    s[i..j]
  }

  /** A string that neither starts nor ends with whitespace is its own strip,
      so stripping twice is stripping once. */
  lemma {:induction false} StripOfTrimmed(s: string)
    requires s == [] || (!IsSpace(s[0]) && !IsSpace(s[|s| - 1]))
    ensures Strip(s) == s
  {
    if s != [] {
      assert SkipSpaces(s, 0) == 0;
      assert DropTrailingSpaces(s, 0, |s|) == |s|;
    }
    assert s[0..|s|] == s;
  }

  /** Python's `str.upper()` on ASCII letters. */
  function UpperChar(c: char): char {
    if 'a' <= c <= 'z' then (c as int - 32) as char else c
  }

  function Upper(s: string): (r: string)
    ensures |r| == |s|
    ensures forall k | 0 <= k < |s| :: r[k] == UpperChar(s[k])
  {
    if s == [] then [] else [UpperChar(s[0])] + Upper(s[1..])
  }

  /** Python's `' '.join(cells)`. */
  function JoinSpace(cells: seq<string>): string {
    if cells == [] then ""
    else if |cells| == 1 then cells[0]
    else cells[0] + " " + JoinSpace(cells[1..])
  }

  /** A word without a space that occurs in the space-join of some cells
      occurs inside one of those cells: it cannot straddle a separator. */
  lemma {:induction false} JoinedWordInCell(cells: seq<string>, w: string)
    requires w != [] && ' ' !in w
    requires Contains(JoinSpace(cells), w)
    ensures exists k | 0 <= k < |cells| :: Contains(cells[k], w)
  {
    var joined := JoinSpace(cells);
    var i :| 0 <= i <= |joined| && OccursAt(joined, w, i);
    if |cells| == 1 {
      assert Contains(cells[0], w);
    } else {
      var a, rest := cells[0], JoinSpace(cells[1..]);
      assert joined == a + " " + rest;
      assert joined[|a|] == ' ';
      assert forall p | i <= p < i + |w| :: joined[p] == w[p - i];
      if i + |w| <= |a| {
        assert a[i..i + |w|] == joined[i..i + |w|];
        assert OccursAt(a, w, i);
        assert Contains(cells[0], w);
      } else {
        assert i > |a|;
        var j := i - |a| - 1;
        assert rest[j..j + |w|] == joined[i..i + |w|];
        assert OccursAt(rest, w, j);
        JoinedWordInCell(cells[1..], w);
        var k :| 0 <= k < |cells[1..]| && Contains(cells[1..][k], w);
        assert Contains(cells[k + 1], w);
      }
    }
  }

  /** Python's `s.replace(',', '')`: the same characters in the same order,
      every comma removed. */
  function RemoveCommas(s: string): (r: string)
    ensures ',' !in r
  {
    if s == [] then []
    else if s[0] == ',' then RemoveCommas(s[1..])
    else [s[0]] + RemoveCommas(s[1..])
  }

  /** Removing commas keeps every other character, as often as it occurs. */
  lemma {:induction false} RemoveCommasKeepsOthers(s: string)
    ensures multiset(RemoveCommas(s)) == multiset(s)[',' := 0]
  {
    if s != [] {
      RemoveCommasKeepsOthers(s[1..]);
      assert s == [s[0]] + s[1..];
    }
  }

  /** Removing commas works piecewise, so it keeps the order of what remains. */
  lemma {:induction false} RemoveCommasConcat(a: string, b: string)
    ensures RemoveCommas(a + b) == RemoveCommas(a) + RemoveCommas(b)
  {
    if a != [] {
      assert (a + b)[1..] == a[1..] + b;
      RemoveCommasConcat(a[1..], b);
    } else {
      assert a + b == b;
    }
  }

  /** A string without commas is left as it is; in particular removing commas
      twice is removing them once. */
  lemma {:induction false} RemoveCommasNoComma(s: string)
    requires ',' !in s
    ensures RemoveCommas(s) == s
  {
    if s != [] {
      RemoveCommasNoComma(s[1..]);
    }
  }
}
