/**
 * The `starts_with(input_string, compare_string)` expression function:
 * whether the text of the input value begins with the comparison string.
 * The text of a value, `str(input_string)`, is a parameter; for a string it
 * is the string itself. `feature` and `parent` are passed by the expression
 * engine and not read.
 */
module StartsWithFunction {

  /** The comparison Python's `str.startswith` makes: the leading characters, one by one. */
  function StartsWith<V, F, P>(inputString: V, compareString: string, feature: F, parent: P, str: V -> string): (r: bool)
    ensures r <==> compareString <= str(inputString)
  {
    var s := str(inputString);
    |compareString| <= |s| && forall i :: 0 <= i < |compareString| ==> s[i] == compareString[i]
  }

  /** True exactly when the text is the comparison string followed by something. */
  lemma {:induction false} StartsWithSplits<V, F, P>(inputString: V, compareString: string, feature: F, parent: P, str: V -> string)
    ensures StartsWith(inputString, compareString, feature, parent, str)
      <==> exists rest :: str(inputString) == compareString + rest
  {
    var s := str(inputString);
    if StartsWith(inputString, compareString, feature, parent, str) {
      assert s == compareString + s[|compareString|..];
    }
  }

  /** An empty comparison string matches every input. */
  lemma {:induction false} EmptyCompareMatches<V, F, P>(inputString: V, feature: F, parent: P, str: V -> string)
    ensures StartsWith(inputString, "", feature, parent, str)
  {
  }

  /** Every text starts with itself. */
  lemma {:induction false} StartsWithItself<V, F, P>(inputString: V, feature: F, parent: P, str: V -> string)
    ensures StartsWith(inputString, str(inputString), feature, parent, str)
  {
  }

  /** A matching comparison string is no longer than the text. */
  lemma {:induction false} MatchIsNoLonger<V, F, P>(inputString: V, compareString: string, feature: F, parent: P, str: V -> string)
    requires StartsWith(inputString, compareString, feature, parent, str)
    ensures |compareString| <= |str(inputString)|
  {
  }

  /** A text that starts with a string also starts with every prefix of it. */
  lemma {:induction false} PrefixOfMatchMatches<V, F, P>(inputString: V, c1: string, c2: string, feature: F, parent: P, str: V -> string)
    requires StartsWith(inputString, c1 + c2, feature, parent, str)
    ensures StartsWith(inputString, c1, feature, parent, str)
  {
    assert forall i :: 0 <= i < |c1| ==> (c1 + c2)[i] == c1[i];
  }

  /** The documented example: `starts_with('Hello World', 'H')` is true. */
  lemma {:induction false} HelloWorldExample<F, P>(feature: F, parent: P)
    ensures StartsWith("Hello World", "H", feature, parent, (s: string) => s)
  {
  }

  /** The result does not depend on the feature or the parent. */
  lemma {:induction false} IgnoresFeatureAndParent<V, F, P>(inputString: V, compareString: string,
                                                            f1: F, p1: P, f2: F, p2: P, str: V -> string)
    ensures StartsWith(inputString, compareString, f1, p1, str) == StartsWith(inputString, compareString, f2, p2, str)
  {
  }
}
