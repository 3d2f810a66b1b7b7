/**
 * `getMemoryLabel`: the marker label of the memory at a position of the sidebar order,
 * A, B, ..., Z, then A1, B1, ..., Z1, then A2, and so on without end.
 */
module MemoryLabel {
  import opened Text

  /** `String.fromCharCode(65 + index % 26)`. */
  function Letter(index: nat): (c: char)
    ensures 'A' <= c <= 'Z'
  {
    (65 + index % 26) as char
  }

  /** `getMemoryLabel(index)`: the letter, followed by the cycle number from the second cycle on. */
  function Label(index: nat): (r: string)
    ensures r != [] && r[0] == Letter(index)
    ensures AllDigits(r[1..])
  {
    var letter := Letter(index);
    var cycle := index / 26;
    if cycle == 0 then [letter] else [letter] + NatToString(cycle)
  }

  /** The position a label stands for: its letter's place in the alphabet plus 26 per cycle. */
  function LabelIndex(s: string): nat
    requires s != [] && 'A' <= s[0] <= 'Z' && AllDigits(s[1..])
  {
    (s[0] as int - 65) + 26 * DigitsValue(s[1..])
  }

  /** Reading a label back gives the index it was made from. */
  lemma LabelRoundTrip(index: nat)
    ensures LabelIndex(Label(index)) == index
  {
    var r := Label(index);
    if index / 26 != 0 {
      assert r[1..] == NatToString(index / 26);
      NatToStringValue(index / 26);
    }
  }

  /** Distinct positions get distinct labels. */
  lemma LabelInjective(i: nat, j: nat)
    requires Label(i) == Label(j)
    ensures i == j
  {
    LabelRoundTrip(i);
    LabelRoundTrip(j);
  }

  /**
   * The first 26 labels are single letters `'A' + index`; from index 26 on a label is the
   * letter for `index % 26` followed by the decimal form of `index / 26`, which never starts with 0.
   */
  lemma LabelShape(index: nat)
    ensures index < 26 ==> Label(index) == [(65 + index) as char]
    ensures index >= 26 ==>
      && |Label(index)| >= 2
      && Label(index)[1..] == NatToString(index / 26)
      && Label(index)[1] != '0'
  {
    if index >= 26 {
      var r := Label(index);
      assert r[1..] == NatToString(index / 26);
      NatToStringNoLeadingZero(index / 26);
    }
  }
}
