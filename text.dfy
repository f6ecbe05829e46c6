/** Facts about strings built by concatenation, used to show that generated
    names differ. */
module Text {

  lemma CancelLeft(a: string, x: string, y: string)
    requires a + x == a + y
    ensures x == y
  {
    assert x == (a + x)[|a|..];
    assert y == (a + y)[|a|..];
  }

  lemma CancelRight(x: string, y: string, b: string)
    requires x + b == y + b
    ensures x == y
  {
    assert |x| == |y|;
    assert x == (x + b)[..|x|];
    assert y == (y + b)[..|y|];
  }

  /** Two underscore-free words each followed by a text that starts with `_`
      can only be equal strings if the words and the rests are equal. */
  lemma SplitAtUnderscore(a: string, ra: string, b: string, rb: string)
    requires '_' !in a && '_' !in b
    requires |ra| > 0 && ra[0] == '_' && |rb| > 0 && rb[0] == '_'
    requires a + ra == b + rb
    ensures a == b && ra == rb
  {
    if |a| < |b| {
      CharAtShorterEnd(a, ra, b, rb);
      assert false;
    } else if |b| < |a| {
      CharAtShorterEnd(b, rb, a, ra);
      assert false;
    }
    assert a == (a + ra)[..|a|];
    assert b == (b + rb)[..|b|];
    CancelLeft(a, ra, rb);
  }

  /** Where the shorter word ends, the longer word holds the rest's first character. */
  lemma CharAtShorterEnd(short: string, rs: string, long: string, rl: string)
    requires |short| < |long| && |rs| > 0
    requires short + rs == long + rl
    ensures long[|short|] == rs[0] && long[|short|] in long
  {
    assert (short + rs)[|short|] == rs[0];
    assert (long + rl)[|short|] == long[|short|];
  }

  lemma NeLeft(a: string, x: string, y: string)
    requires x != y
    ensures a + x != a + y
  {
    if a + x == a + y {
      CancelLeft(a, x, y);
      assert false;
    }
  }

  lemma NeRight(x: string, y: string, b: string)
    requires x != y
    ensures x + b != y + b
  {
    if x + b == y + b {
      CancelRight(x, y, b);
      assert false;
    }
  }

  /** Two texts each ending in `_` and an underscore-free word can only be equal
      strings if the words and what precedes them are equal. */
  lemma SplitAtLastUnderscore(a: string, x: string, b: string, y: string)
    requires '_' !in x && '_' !in y
    requires a + ("_" + x) == b + ("_" + y)
    ensures x == y && a == b
  {
    if |x| < |y| {
      UnderscoreInLonger(a, x, b, y);
      assert false;
    } else if |y| < |x| {
      UnderscoreInLonger(b, y, a, x);
      assert false;
    }
    var s := a + ("_" + x);
    assert x == s[|s| - |x|..];
    assert y == (b + ("_" + y))[|s| - |y|..];
    assert a == s[..|a|];
    assert b == (b + ("_" + y))[..|b|];
  }

  /** Where the shorter word starts, less one, the longer word holds an underscore. */
  lemma UnderscoreInLonger(a: string, x: string, b: string, y: string)
    requires |x| < |y|
    requires a + ("_" + x) == b + ("_" + y)
    ensures '_' in y
  {
    var s := a + ("_" + x);
    var i := |s| - |x| - 1;
    assert s[i] == '_';
    assert (b + ("_" + y))[i] == y[|y| - |x| - 1];
  }

  /** A name `p + x + s` around two different words differs when the fixed
      texts around them are the same. */
  lemma CancelAffixes(p: string, x: string, y: string, s: string)
    requires p + x + s == p + y + s
    ensures x == y
  {
    CancelRight(p + x, p + y, s);
    CancelLeft(p, x, y);
  }
}
