/** Placeholder substitution on one piece of text: `repl_text` inside
    `replace_all`, built on Python's `str.replace`. */
module Substitution {
  import opened Values
  import opened Dicts

  /** The token a template writes for the placeholder named k. */
  function Token(k: string): string
  {
    "[[" + k + "]]"
  }

  /** A placeholder name contains no square bracket (the twelve keys of the
      letter are lower-case words joined by '_'). */
  predicate IsName(k: string)
  {
    forall i :: 0 <= i < |k| ==> k[i] != '[' && k[i] != ']'
  }

  predicate OccursAt(s: string, pat: string, i: int)
  {
    0 <= i && i + |pat| <= |s| && s[i..i + |pat|] == pat
  }

  predicate Occurs(s: string, pat: string)
  {
    exists i :: 0 <= i <= |s| && OccursAt(s, pat, i)
  }

  /** `s.replace(pat, rep)` for a non-empty pattern: scanning from the left,
      every occurrence that does not overlap an earlier replaced one is
      replaced. */
  function Replace(s: string, pat: string, rep: string): string
    requires |pat| > 0
    decreases |s|
  {
    if |s| < |pat| then s
    else if s[..|pat|] == pat then rep + Replace(s[|pat|..], pat, rep)
    else [s[0]] + Replace(s[1..], pat, rep)
  }

  /** One step of `repl_text`: the item (k, v) replaces `[[k]]` by `str(v)`. */
  function ReplaceItem(s: string, item: (string, Value)): string
  {
    Replace(s, Token(item.0), ToStr(item.1))
  }

  /** The left fold of `ReplaceItem` over the items, in mapping order. */
  function ReplaceEach(s: string, m: Mapping): string
    decreases |m|
  {
    if m == [] then s else ReplaceEach(ReplaceItem(s, m[0]), m[1..])
  }

  /** No key of the mapping has its token in s. */
  predicate MentionsNoKey(s: string, m: Mapping)
  {
    forall i :: 0 <= i < |m| ==> !Occurs(s, Token(m[i].0))
  }

  lemma OccursAtShift(s: string, pat: string, d: nat, i: int)
    requires d <= |s|
    ensures OccursAt(s[d..], pat, i) <==> 0 <= i && OccursAt(s, pat, i + d)
  {
    if 0 <= i && i + |pat| <= |s| - d {
      assert s[d..][i..i + |pat|] == s[i + d..i + d + |pat|];
    }
  }

  /** Replacing a pattern that does not occur changes nothing. */
  lemma {:induction false} ReplaceAbsent(s: string, pat: string, rep: string)
    requires |pat| > 0 && !Occurs(s, pat)
    ensures Replace(s, pat, rep) == s
    decreases |s|
  {
    if |s| >= |pat| {
      assert !OccursAt(s, pat, 0);
      forall i ensures !OccursAt(s[1..], pat, i) {
        OccursAtShift(s, pat, 1, i);
      }
      ReplaceAbsent(s[1..], pat, rep);
    }
  }

  /** The way CPython performs `str.replace`: find the leftmost occurrence,
      copy what precedes it, emit the replacement, and carry on after the
      occurrence. */
  lemma ReplaceLeftmost(s: string, pat: string, rep: string, i: nat)
    requires |pat| > 0 && OccursAt(s, pat, i)
    requires forall j :: 0 <= j < i ==> !OccursAt(s, pat, j)
    ensures Replace(s, pat, rep) == s[..i] + rep + Replace(s[i + |pat|..], pat, rep)
  {
    LeftmostParts(s, pat, rep, i);
  }

  lemma LeftmostParts(s: string, pat: string, rep: string, i: nat)
    requires |pat| > 0 && OccursAt(s, pat, i)
    requires forall j :: 0 <= j < i ==> !OccursAt(s, pat, j)
    ensures Replace(s, pat, rep) == Replace(s[..i], pat, rep) + Replace(s[i..], pat, rep)
    ensures Replace(s[..i], pat, rep) == s[..i]
    ensures Replace(s[i..], pat, rep) == rep + Replace(s[i + |pat|..], pat, rep)
  {
    SplitBeforeFirst(s, pat, rep, i);
    PrefixWithout(s, pat, i);
    ReplaceAbsent(s[..i], pat, rep);
    OccursAtShift(s, pat, i, 0);
    ReplaceAtStart(s[i..], pat, rep);
    assert s[i..][|pat|..] == s[i + |pat|..];
  }

  /** No occurrence straddles the place of the first one. */
  lemma SplitBeforeFirst(s: string, pat: string, rep: string, i: nat)
    requires |pat| > 0 && i <= |s|
    requires forall j :: 0 <= j < i ==> !OccursAt(s, pat, j)
    ensures Replace(s, pat, rep) == Replace(s[..i], pat, rep) + Replace(s[i..], pat, rep)
  {
    var x, y := s[..i], s[i..];
    assert x + y == s;
    ReplaceSplit(x, y, pat, rep);
  }

  /** A prefix that ends before the first occurrence holds no occurrence. */
  lemma PrefixWithout(s: string, pat: string, i: nat)
    requires |pat| > 0 && i <= |s|
    requires forall j :: 0 <= j < i ==> !OccursAt(s, pat, j)
    ensures !Occurs(s[..i], pat)
  {
    forall j | 0 <= j <= i ensures !OccursAt(s[..i], pat, j) {
      if OccursAt(s[..i], pat, j) {
        assert s[..i][j..j + |pat|] == s[j..j + |pat|];
        assert OccursAt(s, pat, j);
      }
    }
  }

  /** A text that starts with the pattern begins with the replacement. */
  lemma ReplaceAtStart(y: string, pat: string, rep: string)
    requires |pat| > 0 && OccursAt(y, pat, 0)
    ensures Replace(y, pat, rep) == rep + Replace(y[|pat|..], pat, rep)
  {
    assert y[..|pat|] == y[0..|pat|];
  }

  /** Replacement works on the two sides of a split independently when no
      occurrence straddles the split point. */
  lemma {:induction false} ReplaceSplit(x: string, y: string, pat: string, rep: string)
    requires |pat| > 0
    requires forall i :: |x| - |pat| < i < |x| ==> !OccursAt(x + y, pat, i)
    ensures Replace(x + y, pat, rep) == Replace(x, pat, rep) + Replace(y, pat, rep)
    decreases |x|, 1
  {
    var s := x + y;
    if x == [] {
      assert s == y;
    } else if |s| < |pat| {
    } else if s[..|pat|] == pat {
      ReplaceSplitAtMatch(x, y, pat, rep);
    } else {
      ReplaceSplitAtSkip(x, y, pat, rep);
    }
  }

  /** ReplaceSplit when the text starts with the pattern, which then lies
      inside x. */
  lemma {:induction false} ReplaceSplitAtMatch(x: string, y: string, pat: string, rep: string)
    requires |pat| > 0 && x != [] && |x + y| >= |pat| && (x + y)[..|pat|] == pat
    requires forall i :: |x| - |pat| < i < |x| ==> !OccursAt(x + y, pat, i)
    ensures Replace(x + y, pat, rep) == Replace(x, pat, rep) + Replace(y, pat, rep)
    decreases |x|, 0
  {
    var s := x + y;
    assert OccursAt(s, pat, 0);
    assert |x| >= |pat|;
    assert x[..|pat|] == pat;
    var x' := x[|pat|..];
    assert s[|pat|..] == x' + y;
    forall i | |x'| - |pat| < i < |x'| ensures !OccursAt(x' + y, pat, i) {
      OccursAtShift(s, pat, |pat|, i);
    }
    ReplaceSplit(x', y, pat, rep);
    assert Replace(s, pat, rep) == rep + Replace(x' + y, pat, rep);
    assert Replace(x, pat, rep) == rep + Replace(x', pat, rep);
  }

  /** ReplaceSplit when the text does not start with the pattern. */
  lemma {:induction false} ReplaceSplitAtSkip(x: string, y: string, pat: string, rep: string)
    requires |pat| > 0 && x != [] && |x + y| >= |pat| && (x + y)[..|pat|] != pat
    requires forall i :: |x| - |pat| < i < |x| ==> !OccursAt(x + y, pat, i)
    ensures Replace(x + y, pat, rep) == Replace(x, pat, rep) + Replace(y, pat, rep)
    decreases |x|, 0
  {
    var s := x + y;
    var x' := x[1..];
    assert s[1..] == x' + y;
    assert x == s[..|x|];
    forall i | |x'| - |pat| < i < |x'| ensures !OccursAt(x' + y, pat, i) {
      OccursAtShift(s, pat, 1, i);
    }
    ReplaceSplit(x', y, pat, rep);
    assert Replace(s, pat, rep) == [x[0]] + Replace(x' + y, pat, rep);
    ReplaceFirstSkipped(x, s, pat, rep);
  }

  /** A text that does not start with the pattern, or is shorter than it,
      keeps its first character. */
  lemma ReplaceFirstSkipped(x: string, s: string, pat: string, rep: string)
    requires |pat| > 0 && x != [] && |s| >= |pat| && s[..|pat|] != pat
    requires |x| <= |s| && x == s[..|x|]
    ensures Replace(x, pat, rep) == [x[0]] + Replace(x[1..], pat, rep)
  {
    if |x| >= |pat| {
      assert x[..|pat|] == s[..|pat|];
    } else {
      assert [x[0]] + x[1..] == x;
    }
  }

  /** Where the brackets of a token are: the two opening ones first, the two
      closing ones last, none in between. */
  lemma TokenBrackets(k: string, t: int)
    requires IsName(k) && 0 <= t < |Token(k)|
    ensures Token(k)[t] == '[' <==> t < 2
    ensures Token(k)[t] == ']' <==> t >= |k| + 2
  {
    if 2 <= t < |k| + 2 {
      assert Token(k)[t] == k[t - 2];
    }
  }

  /** Two tokens of bracket-free names that overlap in a text are the same
      token at the same place. */
  lemma TokensDoNotOverlap(s: string, k: string, j: string, p: int, q: int)
    requires IsName(k) && IsName(j)
    requires OccursAt(s, Token(k), p) && OccursAt(s, Token(j), q)
    requires p <= q < p + |Token(k)|
    ensures p == q && k == j
  {
    var P, Q := Token(k), Token(j);
    assert s[p..p + |P|] == P && s[q..q + |Q|] == Q;
    // the token [[j]] opens inside [[k]], so on one of its opening brackets
    assert P[q - p] == s[q] == Q[0] == '[';
    TokenBrackets(k, q - p);
    assert P[q + 1 - p] == s[q + 1] == Q[1] == '[';
    TokenBrackets(k, q + 1 - p);
    assert p == q;
    // both names end where the first closing bracket is
    var n := if |k| <= |j| then |k| else |j|;
    assert P[n + 2] == s[p + n + 2] == Q[n + 2];
    TokenBrackets(k, n + 2);
    TokenBrackets(j, n + 2);
    assert |k| == |j|;
    assert P == s[p..p + |P|] == Q;
    assert k == P[2..|P| - 2];
  }

  /** No occurrence of a name's token straddles the start of another token
      written at position n. */
  lemma NoStraddleBefore(s: string, k: string, j: string, n: nat)
    requires IsName(k) && IsName(j) && OccursAt(s, Token(j), n)
    ensures forall i :: n - |Token(k)| < i < n ==> !OccursAt(s, Token(k), i)
  {
    forall i | n - |Token(k)| < i < n && OccursAt(s, Token(k), i) ensures false {
      TokensDoNotOverlap(s, k, j, i, n);
    }
  }

  /** Replacement splits around a piece t of the text when no occurrence of
      the pattern crosses either end of t. */
  lemma ReplaceAround(a: string, t: string, b: string, pat: string, rep: string)
    requires |pat| > 0
    requires forall i :: |a| - |pat| < i < |a| ==> !OccursAt(a + t + b, pat, i)
    requires forall i :: |t| - |pat| < i < |t| ==> !OccursAt(t + b, pat, i)
    ensures Replace(a + t + b, pat, rep) == Replace(a, pat, rep) + Replace(t, pat, rep) + Replace(b, pat, rep)
  {
    assert a + t + b == a + (t + b);
    ReplaceSplit(a, t + b, pat, rep);
    ReplaceSplit(t, b, pat, rep);
  }

  /** A token `[[j]]` is untouched by the replacement of `[[k]]` for another
      name k: the text on either side is rewritten separately. */
  lemma ReplaceKeepsOtherToken(a: string, j: string, b: string, k: string, rep: string)
    requires IsName(k) && IsName(j) && k != j
    ensures Replace(a + Token(j) + b, Token(k), rep)
         == Replace(a, Token(k), rep) + Token(j) + Replace(b, Token(k), rep)
  {
    var P, Q := Token(k), Token(j);
    assert forall i :: |a| - |P| < i < |a| ==> !OccursAt(a + Q + b, P, i) by {
      var s := a + Q + b;
      assert s[|a|..|a| + |Q|] == Q;
      NoStraddleBefore(s, k, j, |a|);
    }
    assert forall i :: |Q| - |P| < i < |Q| ==> !OccursAt(Q + b, P, i) by {
      var s := Q + b;
      assert s[..|Q|] == Q;
      forall i | |Q| - |P| < i < |Q| && OccursAt(s, P, i) ensures false {
        TokensDoNotOverlap(s, j, k, 0, i);
      }
    }
    ReplaceAround(a, Q, b, P, rep);
    assert !Occurs(Q, P) by {
      forall i | 0 <= i <= |Q| && OccursAt(Q, P, i) ensures false {
        assert Q[0..|Q|] == Q;
        TokensDoNotOverlap(Q, j, k, 0, i);
      }
    }
    ReplaceAbsent(Q, P, rep);
  }

  /** A token `[[k]]` is replaced by the value, and the text on either side is
      rewritten separately. */
  lemma ReplaceHitsToken(a: string, b: string, k: string, rep: string)
    requires IsName(k)
    ensures Replace(a + Token(k) + b, Token(k), rep)
         == Replace(a, Token(k), rep) + rep + Replace(b, Token(k), rep)
  {
    var P := Token(k);
    assert forall i :: |a| - |P| < i < |a| ==> !OccursAt(a + P + b, P, i) by {
      var s := a + P + b;
      assert s[|a|..|a| + |P|] == P;
      NoStraddleBefore(s, k, k, |a|);
    }
    assert forall i :: |P| - |P| < i < |P| ==> !OccursAt(P + b, P, i) by {
      var s := P + b;
      assert s[..|P|] == P;
      forall i | 0 < i < |P| && OccursAt(s, P, i) ensures false {
        TokensDoNotOverlap(s, k, k, 0, i);
      }
    }
    ReplaceAround(a, P, b, P, rep);
    assert Replace(P, P, rep) == rep by {
      assert P[..|P|] == P && P[|P|..] == [];
    }
  }

  /** Folding in two batches is folding once over both, in order. */
  lemma {:induction false} ReplaceEachAppend(s: string, m1: Mapping, m2: Mapping)
    ensures ReplaceEach(s, m1 + m2) == ReplaceEach(ReplaceEach(s, m1), m2)
    decreases |m1|
  {
    if m1 == [] {
      assert m1 + m2 == m2;
    } else {
      assert (m1 + m2)[0] == m1[0];
      assert (m1 + m2)[1..] == m1[1..] + m2;
      ReplaceEachAppend(ReplaceItem(s, m1[0]), m1[1..], m2);
    }
  }

  /** An empty mapping leaves the text as it is. */
  lemma ReplaceEachEmpty(s: string)
    ensures ReplaceEach(s, []) == s
  {
  }

  /** When no key's token occurs in the text, the text is returned unchanged. */
  lemma {:induction false} ReplaceEachAbsent(s: string, m: Mapping)
    requires MentionsNoKey(s, m)
    ensures ReplaceEach(s, m) == s
    decreases |m|
  {
    if m != [] {
      assert !Occurs(s, Token(m[0].0));
      ReplaceAbsent(s, Token(m[0].0), ToStr(m[0].1));
      assert MentionsNoKey(s, m[1..]) by {
        forall i | 0 <= i < |m[1..]| ensures !Occurs(s, Token(m[1..][i].0)) {
          assert m[1..][i] == m[i + 1];
        }
      }
      ReplaceEachAbsent(s, m[1..]);
    }
  }

  /** A token whose name is not a key survives every step and stays where it
      was; only the text around it is rewritten. */
  lemma {:induction false} ReplaceEachKeepsUnknownToken(a: string, j: string, b: string, m: Mapping)
    requires IsName(j) && j !in Keys(m)
    requires forall i :: 0 <= i < |m| ==> IsName(m[i].0)
    ensures ReplaceEach(a + Token(j) + b, m) == ReplaceEach(a, m) + Token(j) + ReplaceEach(b, m)
    decreases |m|
  {
    if m != [] {
      assert m[0].0 == Keys(m)[0];
      ReplaceKeepsOtherToken(a, j, b, m[0].0, ToStr(m[0].1));
      assert Keys(m[1..]) == Keys(m)[1..];
      ReplaceEachKeepsUnknownToken(ReplaceItem(a, m[0]), j, ReplaceItem(b, m[0]), m[1..]);
    }
  }

  /** Order matters: a value may itself hold a token that a later key replaces,
      but not one that an earlier key has already been applied for. */
  lemma ReplaceEachIsSequential()
    ensures ReplaceEach(Token("a"), [("a", Str(Token("b"))), ("b", Str("x"))]) == "x"
    ensures ReplaceEach(Token("a"), [("b", Str("x")), ("a", Str(Token("b")))]) == Token("b")
  {
    ReplaceHitsToken("", "", "a", Token("b"));
    assert "" + Token("a") + "" == Token("a");
    ReplaceHitsToken("", "", "b", "x");
    assert "" + Token("b") + "" == Token("b");
    ReplaceKeepsOtherToken("", "a", "", "b", "x");
  }

  /** `repl_text`: for each item of the mapping in order, every `[[k]]` in the
      text so far is replaced by `str(v)`. */
  method ReplaceInText(text: string, mapping: Mapping) returns (out: string)
    ensures out == ReplaceEach(text, mapping)
  {
    out := text;
    var i := 0;
    while i < |mapping|
      invariant 0 <= i <= |mapping|
      invariant out == ReplaceEach(text, mapping[..i])
    {
      var (k, v) := mapping[i];
      ReplaceEachAppend(text, mapping[..i], [mapping[i]]);
      assert mapping[..i + 1] == mapping[..i] + [mapping[i]];
      out := Replace(out, Token(k), ToStr(v));
      i := i + 1;
    }
    assert mapping[..i] == mapping;
  }
}
