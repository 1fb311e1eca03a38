/** Splitting strings at a separator. */
module Texts {

  predicate Without(s: string, c: char) {
    c !in s
  }

  /** `parts` with `t` put after the last piece. */
  function Extended(parts: seq<string>, t: string): (r: seq<string>)
    requires parts != []
  {
    parts[..|parts| - 1] + [parts[|parts| - 1] + t]
  }

  lemma ExtendedTwice(parts: seq<string>, t: string, u: string)
    requires parts != []
    ensures Extended(Extended(parts, t), u) == Extended(parts, t + u)
  {
    var n := |parts| - 1;
    assert Extended(parts, t)[..n] == parts[..n];
    assert parts[n] + t + u == parts[n] + (t + u);
  }

  /** The pieces between the separators; there is always one more than there are separators. */
  function Split(s: string, c: char): (parts: seq<string>)
    ensures parts != []
  {
    if s == [] then [""]
    else
      var n := |s| - 1;
      var parts := Split(s[..n], c);
      if s[n] == c then parts + [""] else Extended(parts, [s[n]])
  }

  lemma {:induction false} PiecesWithout(s: string, c: char)
    ensures forall k :: 0 <= k < |Split(s, c)| ==> Without(Split(s, c)[k], c)
  {
    if s != [] {
      PiecesWithout(s[..|s| - 1], c);
    }
  }

  /** Text without separators extends the last piece. */
  lemma {:induction false} SplitExtends(s: string, t: string, c: char)
    requires Without(t, c)
    ensures Split(s + t, c) == Extended(Split(s, c), t)
  {
    var parts := Split(s, c);
    if t == [] {
      assert s + t == s;
      assert parts[|parts| - 1] + t == parts[|parts| - 1];
    } else {
      var n := |t| - 1;
      SplitExtends(s, t[..n], c);
      assert (s + t)[..|s| + n] == s + t[..n] && (s + t)[|s| + n] == t[n];
      ExtendedTwice(parts, t[..n], [t[n]]);
      assert t[..n] + [t[n]] == t;
    }
  }

  lemma SplitSeparator(s: string, c: char)
    ensures Split(s + [c], c) == Split(s, c) + [""]
  {
    assert (s + [c])[..|s|] == s;
  }

  /** A separator and text without separators add one piece. */
  lemma SplitAppends(s: string, t: string, c: char)
    requires Without(t, c)
    ensures Split(s + [c] + t, c) == Split(s, c) + [t]
  {
    SplitSeparator(s, c);
    SplitExtends(s + [c], t, c);
    assert (Split(s, c) + [""])[..|Split(s, c)|] == Split(s, c);
    assert "" + t == t;
  }

  lemma SplitPlain(t: string, c: char)
    requires Without(t, c)
    ensures Split(t, c) == [t]
  {
    SplitExtends("", t, c);
    assert "" + t == t;
  }

  /** There is a second piece just if there is a separator. */
  lemma {:induction false} SplitFinds(s: string, c: char)
    ensures |Split(s, c)| >= 2 <==> c in s
  {
    if s != "" {
      var n := |s| - 1;
      SplitFinds(s[..n], c);
      assert |Split(s, c)| == |Split(s[..n], c)| + if s[n] == c then 1 else 0;
      assert c in s <==> c in s[..n] || s[n] == c by {
        assert s == s[..n] + [s[n]];
      }
    }
  }

  /** Pieces have no character that the whole has not. */
  lemma {:induction false} PiecesWithin(s: string, c: char, d: char)
    requires Without(s, d)
    ensures forall k :: 0 <= k < |Split(s, c)| ==> Without(Split(s, c)[k], d)
  {
    if s != "" {
      assert s[|s| - 1] in s;
      PiecesWithin(s[..|s| - 1], c, d);
    }
  }

  lemma ExtendedFirst(parts: seq<string>, t: string)
    requires parts != []
    ensures Extended(parts, t)[0] == if |parts| > 1 then parts[0] else parts[0] + t
  {
  }

  lemma PrefixOfPrefix(p: string, s: string, n: nat)
    requires n <= |s| && |p| <= n && p == s[..n][..|p|]
    ensures p == s[..|p|]
  {
  }

  lemma {:induction false} FirstPieceIsPrefix(s: string, c: char)
    ensures |Split(s, c)[0]| <= |s| && Split(s, c)[0] == s[..|Split(s, c)[0]|]
    ensures |Split(s, c)| == 1 ==> Split(s, c)[0] == s
  {
    if s != "" {
      var n := |s| - 1;
      var parts := Split(s[..n], c);
      FirstPieceIsPrefix(s[..n], c);
      PrefixOfPrefix(parts[0], s, n);
      ExtendedFirst(parts, [s[n]]);
      assert s == s[..n] + [s[n]] == s[..|s|];
    }
  }

  /** The first piece ends at the first separator. */
  lemma {:induction false} FirstPiece(s: string, t: string, c: char)
    requires Without(s, c) && (t == "" || t[0] == c)
    ensures Split(s + t, c)[0] == s
  {
    if t == "" {
      assert s + t == s;
      SplitPlain(s, c);
    } else {
      var n := |t| - 1;
      FirstPiece(s, t[..n], c);
      assert (s + t)[..|s| + n] == s + t[..n];
      if n > 0 && t[n] != c {
        assert c in s + t[..n] by { assert (s + t[..n])[|s|] == c; }
        SplitFinds(s + t[..n], c);
      }
    }
  }
}
