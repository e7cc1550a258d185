/**
 * The `ends_with(input_string, compare_string)` expression function:
 * whether the text of the input value ends with the comparison string.
 * The text of a value, `str(input_string)`, is a parameter; for a string it
 * is the string itself. `feature` and `parent` are passed by the expression
 * engine and not read.
 */
module EndsWithFunction {
  import StartsWithFunction

  /** The comparison Python's `str.endswith` makes: the trailing characters against the comparison string. */
  function EndsWith<V, F, P>(inputString: V, compareString: string, feature: F, parent: P, str: V -> string): (r: bool)
    ensures r <==> exists rest :: str(inputString) == rest + compareString
  {
    var s := str(inputString);
    var n := |compareString|;
    var matches := n <= |s| && s[|s| - n..] == compareString;
    assert matches ==> s == s[..|s| - n] + compareString;
    matches
  }

  /** The characters of a string in reverse order. */
  function Reverse(s: string): (r: string)
    ensures |r| == |s|
    ensures forall i :: 0 <= i < |s| ==> r[i] == s[|s| - 1 - i]
  {
    if |s| == 0 then "" else Reverse(s[1..]) + [s[0]]
  }

  /** A text ends with a string exactly when its reverse starts with that string's reverse. */
  lemma {:induction false} EndsWithIsReversedStartsWith<V, F, P>(inputString: V, compareString: string,
                                                                 feature: F, parent: P, str: V -> string)
    ensures EndsWith(inputString, compareString, feature, parent, str)
      == StartsWithFunction.StartsWith(inputString, Reverse(compareString), feature, parent, (v: V) => Reverse(str(v)))
  {
    SuffixIsReversedPrefix(str(inputString), compareString);
  }

  /** c is a suffix of s exactly when c reversed is a prefix of s reversed. */
  lemma {:induction false} SuffixIsReversedPrefix(s: string, c: string)
    ensures (|c| <= |s| && s[|s| - |c|..] == c) <==> Reverse(c) <= Reverse(s)
  {
    var n := |c|;
    if n <= |s| {
      var tail := s[|s| - n..];
      if tail == c {
        forall i | 0 <= i < n
          ensures Reverse(s)[i] == Reverse(c)[i]
        {
          assert tail[n - 1 - i] == c[n - 1 - i];
        }
      }
      if Reverse(c) <= Reverse(s) {
        forall j | 0 <= j < n
          ensures tail[j] == c[j]
        {
          assert Reverse(s)[n - 1 - j] == Reverse(c)[n - 1 - j];
        }
        assert tail == c;
      }
    }
  }

  /** An empty comparison string matches every input. */
  lemma {:induction false} EmptyCompareMatches<V, F, P>(inputString: V, feature: F, parent: P, str: V -> string)
    ensures EndsWith(inputString, "", feature, parent, str)
  {
  }

  /** Every text ends with itself. */
  lemma {:induction false} EndsWithItself<V, F, P>(inputString: V, feature: F, parent: P, str: V -> string)
    ensures EndsWith(inputString, str(inputString), feature, parent, str)
  {
  }

  /** A matching comparison string is no longer than the text. */
  lemma {:induction false} MatchIsNoLonger<V, F, P>(inputString: V, compareString: string, feature: F, parent: P, str: V -> string)
    requires EndsWith(inputString, compareString, feature, parent, str)
    ensures |compareString| <= |str(inputString)|
  {
  }

  /** The documented example: `ends_with('Hello World', 'd')` is true. */
  lemma {:induction false} HelloWorldExample<F, P>(feature: F, parent: P)
    ensures EndsWith("Hello World", "d", feature, parent, (s: string) => s)
  {
  }

  /** The result does not depend on the feature or the parent. */
  lemma {:induction false} IgnoresFeatureAndParent<V, F, P>(inputString: V, compareString: string,
                                                            f1: F, p1: P, f2: F, p2: P, str: V -> string)
    ensures EndsWith(inputString, compareString, f1, p1, str) == EndsWith(inputString, compareString, f2, p2, str)
  {
  }
}
