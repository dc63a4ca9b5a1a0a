/** Blanks at the ends of a text, as Python's string functions see them. */
module Text {

  /** What `int` skips around a number in ASCII text. */
  predicate IsAsciiSpace(c: char) {
    c == ' ' || '\t' <= c <= '\r'
  }

  /** What `str.strip` removes. */
  predicate IsBlank(c: char) {
    var code := c as int;
    || IsAsciiSpace(c) || 0x1c <= code <= 0x1f || code in {0x85, 0xa0, 0x1680, 0x2028, 0x2029, 0x202f, 0x205f, 0x3000}
    || 0x2000 <= code <= 0x200a
  }

  function Strip(text: string, blank: char -> bool): (stripped: string)
    ensures stripped == "" || (!blank(stripped[0]) && !blank(stripped[|stripped| - 1]))
    decreases |text|
  {
    if text == "" then ""
    else if blank(text[0]) then Strip(text[1..], blank)
    else if blank(text[|text| - 1]) then Strip(text[..|text| - 1], blank)
    else text
  }

  /** The part of the text from i to j has no blank at either end, and outside it there are only blanks. */
  ghost predicate Bounds(text: string, blank: char -> bool, i: int, j: int) {
    && 0 <= i <= j <= |text|
    && (i < j ==> !blank(text[i]) && !blank(text[j - 1]))
    && (forall k :: 0 <= k < i || j <= k < |text| ==> blank(text[k]))
  }

  ghost predicate Trimmed(text: string, blank: char -> bool, stripped: string) {
    exists i, j :: Bounds(text, blank, i, j) && text[i..j] == stripped
  }

  lemma FurtherRight(text: string, blank: char -> bool, i: int, j: int)
    requires text != "" && blank(text[0]) && Bounds(text[1..], blank, i, j)
    ensures Bounds(text, blank, i + 1, j + 1) && text[1..][i..j] == text[i + 1..j + 1]
  {
    forall k | 0 <= k < i + 1 || j + 1 <= k < |text| ensures blank(text[k]) {
      assert k > 0 ==> text[1..][k - 1] == text[k];
    }
  }

  lemma {:induction false} StripKeepsTheMiddle(text: string, blank: char -> bool) returns (i: nat, j: nat)
    ensures Bounds(text, blank, i, j) && text[i..j] == Strip(text, blank)
    decreases |text|
  {
    if text == "" {
      i, j := 0, 0;
    } else if blank(text[0]) {
      i, j := StripKeepsTheMiddle(text[1..], blank);
      FurtherRight(text, blank, i, j);
      i, j := i + 1, j + 1;
    } else if blank(text[|text| - 1]) {
      i, j := StripKeepsTheMiddle(text[..|text| - 1], blank);
      assert text[..|text| - 1][i..j] == text[i..j];
    } else {
      i, j := 0, |text|;
    }
  }

  /** What is left is the text without the blanks around it, and nothing else is. */
  lemma StripTrims(text: string, blank: char -> bool, stripped: string)
    ensures Trimmed(text, blank, stripped) <==> stripped == Strip(text, blank)
  {
    var i, j := StripKeepsTheMiddle(text, blank);
    if i', j' :| Bounds(text, blank, i', j') && text[i'..j'] == stripped {
      assert i < j ==> i' <= i && j <= j';
      assert i' < j' ==> i <= i' && j' <= j;
    }
  }
}
