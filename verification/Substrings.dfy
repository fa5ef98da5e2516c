/** strings.Contains, and how to tell that something is not contained. */
module Substrings {

  predicate OccursAt(s: string, i: int, sub: string) {
    0 <= i <= |s| - |sub| && s[i..i + |sub|] == sub
  }

  predicate Contains(s: string, sub: string) {
    exists i :: 0 <= i <= |s| && OccursAt(s, i, sub)
  }

  /** Two characters next to each other. */
  predicate PairAt(s: string, i: int, x: char, y: char) {
    0 <= i < |s| - 1 && s[i] == x && s[i + 1] == y
  }

  predicate HasPair(s: string, x: char, y: char) {
    exists i :: 0 <= i < |s| && PairAt(s, i, x, y)
  }

  lemma OccursChars(s: string, i: int, w: string)
    requires OccursAt(s, i, w)
    ensures forall j :: i <= j < i + |w| ==> s[j] == w[j - i] && s[j] in w
  {
    forall j | i <= j < i + |w| ensures s[j] == w[j - i] {
      assert s[i..i + |w|][j - i] == s[j];
    }
  }

  lemma PairMissing(s: string, w: string, x: char, y: char)
    requires HasPair(w, x, y) && !HasPair(s, x, y)
    ensures !Contains(s, w)
  {
    var k :| 0 <= k < |w| && PairAt(w, k, x, y);
    forall i ensures OccursAt(s, i, w) ==> PairAt(s, i + k, x, y) {
      if OccursAt(s, i, w) {
        OccursChars(s, i, w);
        assert s[i + k] == w[i + k - i] && s[i + k + 1] == w[i + k + 1 - i];
      }
    }
  }

  lemma OccursOnOneSide(a: string, c: char, b: string, w: string, i: int)
    requires c !in w && w != "" && OccursAt(a + [c] + b, i, w)
    ensures OccursAt(a, i, w) || OccursAt(b, i - |a| - 1, w)
  {
    var s := a + [c] + b;
    OccursChars(s, i, w);
    assert s[|a|] == c;
    if i > |a| {
      assert b[i - |a| - 1..i - |a| - 1 + |w|] == s[i..i + |w|];
    } else {
      assert a[i..i + |w|] == s[i..i + |w|];
    }
  }

  /** A separator that is not in a word keeps it on one side. */
  lemma ContainsAcross(a: string, c: char, b: string, w: string)
    requires c !in w && w != ""
    ensures Contains(a + [c] + b, w) <==> Contains(a, w) || Contains(b, w)
  {
    var s := a + [c] + b;
    if Contains(s, w) {
      var i :| 0 <= i <= |s| && OccursAt(s, i, w);
      OccursOnOneSide(a, c, b, w, i);
    }
    if i :| 0 <= i <= |a| && OccursAt(a, i, w) {
      assert s[i..i + |w|] == a[i..i + |w|];
      assert OccursAt(s, i, w);
    }
    if i :| 0 <= i <= |b| && OccursAt(b, i, w) {
      var j := |a| + 1 + i;
      assert s[|a| + 1..] == b;
      assert s[j..j + |w|] == s[|a| + 1..][i..i + |w|];
      assert OccursAt(s, j, w);
    }
  }

  lemma PairInFront(p: string, q: string, x: char, y: char)
    ensures forall i :: PairAt(p + q, i, x, y) && i < |p| - 1 ==> PairAt(p, i, x, y)
  {
  }

  /** A word that does not start within the front occurs in the rest. */
  lemma ContainsInRest(p: string, q: string, w: string)
    requires |w| >= 2 && p != "" && p[|p| - 1] != w[0] && !HasPair(p, w[0], w[1])
    ensures Contains(p + q, w) ==> Contains(q, w)
  {
    var s := p + q;
    if Contains(s, w) {
      var i :| 0 <= i <= |s| && OccursAt(s, i, w);
      OccursChars(s, i, w);
      PairInFront(p, q, w[0], w[1]);
      assert PairAt(s, i, w[0], w[1]);
      assert i >= |p|;
      assert q[i - |p|..i - |p| + |w|] == s[i..i + |w|];
      assert OccursAt(q, i - |p|, w);
    }
  }

  lemma ContainsPrefix(w: string, rest: string)
    ensures Contains(w + rest, w)
  {
    assert OccursAt(w + rest, 0, w);
  }
}
