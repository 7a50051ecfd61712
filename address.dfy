/**
  Column addresses: spreadsheet column letters (A, B, ..., Z, AA, ...) and
  their 1-based numbers, in bijective base 26 (a numeral system without a
  zero digit: A stands for 1 and Z for 26).
 */
module Address {

  /** The value one letter contributes: `charCodeAt(i) - 64`, so A = 1 ... Z = 26. */
  function CharValue(c: char): (v: int) {
    c as int - 64
  }

  predicate IsUpper(c: char) {
    'A' <= c <= 'Z'
  }

  /** A column label: one or more upper-case letters. */
  predicate IsLabel(s: string) {
    |s| >= 1 && forall i :: 0 <= i < |s| ==> IsUpper(s[i])
  }

  /** The number of a label, accumulated left to right as `index * 26 + CharValue(c)`. */
  function LabelValue(s: string): (v: int) {
    if s == [] then 0 else LabelValue(s[..|s| - 1]) * 26 + CharValue(s[|s| - 1])
  }

  /** The label of a column number; empty for numbers below 1. */
  function Letters(n: int): (s: string)
    ensures n >= 1 <==> IsLabel(s)
    decreases n
  {
    if n <= 0 then [] else Letters((n - 1) / 26) + [(65 + (n - 1) % 26) as char]
  }

  /** `columnLetterToIndex`: the loop over the letters of `letter`. */
  method ColumnLetterToIndex(letter: string) returns (index: int)
    ensures index == LabelValue(letter)
    ensures IsLabel(letter) ==> index >= 1 && Letters(index) == letter
  {
    index := 0;
    for i := 0 to |letter|
      invariant index == LabelValue(letter[..i])
    {
      assert letter[..i + 1][..i] == letter[..i];
      index := index * 26 + (letter[i] as int - 64);
    }
    assert letter[..|letter|] == letter;
    if IsLabel(letter) {
      LabelRoundTrip(letter);
    }
  }

  /** `indexToColumnLetter`: prepend one letter per base-26 digit. */
  method IndexToColumnLetter(index: int) returns (letter: string)
    ensures letter == Letters(index)
    ensures index >= 1 ==> IsLabel(letter) && LabelValue(letter) == index
  {
    var n := index;
    letter := "";
    while n > 0
      invariant Letters(index) == Letters(n) + letter
      decreases n
    {
      var remainder := (n - 1) % 26;
      letter := [(65 + remainder) as char] + letter;
      n := (n - 1) / 26;
    }
    if index >= 1 {
      NumberRoundTrip(index);
    }
  }

  lemma {:induction false} LabelValuePositive(s: string)
    requires IsLabel(s)
    ensures LabelValue(s) >= 1
    decreases |s|
  {
    var p := s[..|s| - 1];
    if p != [] {
      assert IsLabel(p) by {
        assert forall i :: 0 <= i < |p| ==> p[i] == s[i];
      }
      LabelValuePositive(p);
    }
  }

  /** Dropping the last letter of a label of two or more letters leaves a label. */
  lemma LabelPrefix(s: string)
    requires IsLabel(s) && |s| >= 2
    ensures IsLabel(s[..|s| - 1])
  {
    var p := s[..|s| - 1];
    assert forall i :: 0 <= i < |p| ==> p[i] == s[i];
  }

  /** Appending a letter of value `k` to the label of `v` gives the label of `v * 26 + k`. */
  lemma LettersStep(v: nat, k: int)
    requires 1 <= k <= 26
    ensures Letters(v * 26 + k) == Letters(v) + [(64 + k) as char]
  {
    var n := v * 26 + k;
    assert (n - 1) / 26 == v && (n - 1) % 26 == k - 1;
  }

  /** Decoding then encoding a label gives the label back. */
  lemma {:induction false} LabelRoundTrip(s: string)
    requires IsLabel(s)
    ensures Letters(LabelValue(s)) == s
    decreases |s|
  {
    var p, c := s[..|s| - 1], s[|s| - 1];
    if p != [] {
      LabelPrefix(s);
      LabelValuePositive(p);
      LabelRoundTrip(p);
    }
    var v := LabelValue(p);
    assert LabelValue(s) == v * 26 + CharValue(c);
    LettersStep(v, CharValue(c));
    assert ((64 + CharValue(c)) as char) == c;
    assert s == p + [c];
  }

  /** Encoding then decoding a column number gives the number back. */
  lemma {:induction false} NumberRoundTrip(n: int)
    requires n >= 1
    ensures LabelValue(Letters(n)) == n
    decreases n
  {
    var q, r := (n - 1) / 26, (n - 1) % 26;
    var s := Letters(n);
    assert q * 26 + (r + 1) == n;
    assert LabelValue(Letters(q)) == q by {
      if q >= 1 {
        NumberRoundTrip(q);
      }
    }
    assert s[..|s| - 1] == Letters(q) && CharValue(s[|s| - 1]) == r + 1 by {
      assert s == Letters(q) + [(65 + r) as char];
    }
  }
}
