module Strings {
  /** `part` occurs somewhere in s. */
  predicate Contains(s: string, part: string) {
    exists k | 0 <= k <= |s| - |part| :: part <= s[k..]
  }

  lemma ContainsIff(s: string, part: string)
    ensures Contains(s, part) <==> exists pre, post :: s == pre + part + post
  {
    if Contains(s, part) {
      var k :| 0 <= k <= |s| - |part| && part <= s[k..];
      assert s == s[..k] + part + s[k + |part|..];
    }
    if pre, post :| s == pre + part + post {
      assert part <= s[|pre|..];
    }
  }

  /** The order of strings by their characters. */
  predicate LexLe(a: string, b: string) {
    a == "" || (b != "" && (a[0] < b[0] || (a[0] == b[0] && LexLe(a[1..], b[1..]))))
  }

  lemma {:induction false} LexTotal(a: string, b: string)
    ensures LexLe(a, b) || LexLe(b, a)
  {
    if a != "" && b != "" && a[0] == b[0] {
      LexTotal(a[1..], b[1..]);
    }
  }

  lemma {:induction false} LexAntisymmetric(a: string, b: string)
    requires LexLe(a, b) && LexLe(b, a)
    ensures a == b
  {
    if a != "" && b != "" {
      LexAntisymmetric(a[1..], b[1..]);
      assert a == [a[0]] + a[1..] && b == [b[0]] + b[1..];
    }
  }

  lemma {:induction false} LexTransitive(a: string, b: string, c: string)
    requires LexLe(a, b) && LexLe(b, c)
    ensures LexLe(a, c)
  {
    if a != "" && a[0] == b[0] == c[0] {
      LexTransitive(a[1..], b[1..], c[1..]);
    }
  }

  /** The first difference decides. */
  lemma {:induction false} LexFirstDifference(s: string, c: char, x: string, d: char, y: string)
    requires c < d
    ensures LexLe(s + [c] + x, s + [d] + y) && !LexLe(s + [d] + y, s + [c] + x)
  {
    var a, b := s + [c] + x, s + [d] + y;
    if s != "" {
      LexFirstDifference(s[1..], c, x, d, y);
      assert a[1..] == s[1..] + [c] + x && b[1..] == s[1..] + [d] + y;
    }
  }

  /** A string comes before its extensions. */
  lemma {:induction false} LexPrefix(s: string, x: string)
    ensures LexLe(s, s + x)
  {
    if s != "" {
      LexPrefix(s[1..], x);
      assert (s + x)[1..] == s[1..] + x;
    }
  }
}
