/** The string operations the service relies on: ToLowerInvariant, comparison under
  * StringComparer.OrdinalIgnoreCase, and string.Join. Case folding is modelled on the
  * ASCII letters only. */
module Text {

  /** char.ToLowerInvariant on ASCII. */
  function LowerChar(c: char): (r: char)
    ensures 'A' <= c <= 'Z' ==> r as int == c as int + 32
    ensures !('A' <= c <= 'Z') ==> r == c
    ensures !('A' <= r <= 'Z')
  {
    if 'A' <= c <= 'Z' then (c as int + 32) as char else c
  }

  /** string.ToLowerInvariant. */
  function ToLower(s: string): (r: string)
    ensures |r| == |s|
    ensures forall i :: 0 <= i < |s| ==> r[i] == LowerChar(s[i])
  {
    if s == [] then [] else [LowerChar(s[0])] + ToLower(s[1..])
  }

  /** Lower-casing twice is lower-casing once. */
  lemma ToLowerIdempotent(s: string)
    ensures ToLower(ToLower(s)) == ToLower(s)
  {
  }

  /** StringComparer.OrdinalIgnoreCase.Equals. */
  predicate EqualsIgnoreCase(a: string, b: string)
  {
    ToLower(a) == ToLower(b)
  }

  /** Ignoring case is an equivalence that differs from equality only on letters. */
  lemma EqualsIgnoreCaseCharwise(a: string, b: string)
    ensures EqualsIgnoreCase(a, b) <==>
      |a| == |b| && forall i :: 0 <= i < |a| ==> LowerChar(a[i]) == LowerChar(b[i])
  {
    if EqualsIgnoreCase(a, b) {
      assert |a| == |ToLower(a)| == |ToLower(b)| == |b|;
      forall i | 0 <= i < |a| ensures LowerChar(a[i]) == LowerChar(b[i]) {
        assert ToLower(a)[i] == ToLower(b)[i];
      }
    }
  }

  /** A string equals, ignoring case, the lower-case spelling it folds to. */
  lemma EqualsIgnoreCaseLower(s: string, lower: string)
    requires ToLower(s) == lower && ToLower(lower) == lower
    ensures EqualsIgnoreCase(s, lower)
  {
  }

  /** string.Join(separator, values). */
  function Join(values: seq<string>, separator: string): (r: string)
    ensures values == [] ==> r == []
    ensures |values| == 1 ==> r == values[0]
  {
    if values == [] then []
    else if |values| == 1 then values[0]
    else values[0] + separator + Join(values[1..], separator)
  }

  /** Joining grows by one separator and one value per extra value. */
  lemma {:induction false} JoinLength(values: seq<string>, separator: string)
    requires values != []
    ensures |Join(values, separator)| ==
      (|values| - 1) * |separator| + SumOfLengths(values)
  {
    if |values| > 1 {
      JoinLength(values[1..], separator);
    }
  }

  function SumOfLengths(values: seq<string>): nat
  {
    if values == [] then 0 else |values[0]| + SumOfLengths(values[1..])
  }
}
