/** String helpers the search filter is built from: lower-casing and the
    JavaScript `includes` substring test. Lower-casing covers the ASCII
    letters only. */
module Text {

  predicate IsUpper(c: char) {
    'A' <= c <= 'Z'
  }

  /** Lower-cases one character; the result is never an upper-case letter. */
  function LowerChar(c: char): (r: char)
    ensures !IsUpper(r)
    ensures IsUpper(c) || r == c
  {
    if IsUpper(c) then (c as int - 'A' as int + 'a' as int) as char else c
  }

  /** `s.toLowerCase()`, character by character. */
  function Lower(s: string): string {
    seq(|s|, i requires 0 <= i < |s| => LowerChar(s[i]))
  }

  /** Lower-casing distributes over concatenation, so lower-casing
      `first + " " + last` is the same as joining the lower-cased parts. */
  lemma LowerAppend(a: string, b: string)
    ensures Lower(a + b) == Lower(a) + Lower(b)
  {
    var l, r := Lower(a + b), Lower(a) + Lower(b);
    assert |l| == |r|;
    forall i | 0 <= i < |l|
      ensures l[i] == r[i]
    {
      if i < |a| {
        assert (a + b)[i] == a[i];
      } else {
        assert (a + b)[i] == b[i - |a|];
      }
    }
  }

  /** `t` occurs in `s` starting at index `k`. */
  ghost predicate OccursAt(s: string, t: string, k: int) {
    0 <= k && k + |t| <= |s| && s[k..k + |t|] == t
  }

  /** An occurrence in `s[1..]` is an occurrence one position later in `s`. */
  lemma OccursInTail(s: string, t: string)
    requires |s| > 0
    ensures forall k :: 0 <= k ==> (OccursAt(s[1..], t, k) <==> OccursAt(s, t, k + 1))
  {
    forall k | 0 <= k
      ensures OccursAt(s[1..], t, k) <==> OccursAt(s, t, k + 1)
    {
      if k + |t| <= |s| - 1 {
        var x, y := s[1..][k..k + |t|], s[k + 1..k + 1 + |t|];
        assert forall i | 0 <= i < |t| :: x[i] == y[i];
      }
    }
  }

  /** `s.includes(t)`: `t` occurs somewhere in `s`. */
  function Includes(s: string, t: string): (r: bool)
    ensures r <==> exists k :: OccursAt(s, t, k)
    decreases |s|
  {
    if |t| > |s| then
      false
    else if s[..|t|] == t then
      assert OccursAt(s, t, 0);
      true
    else
      OccursInTail(s, t);
      assert !OccursAt(s, t, 0);
      assert forall k :: OccursAt(s, t, k) ==> k >= 1 && OccursAt(s[1..], t, k - 1);
      Includes(s[1..], t)
  }

  /** The empty string occurs in every string. */
  lemma IncludesEmpty(s: string)
    ensures Includes(s, "")
  {
    assert OccursAt(s, "", 0);
  }

  /** Substring containment is transitive: if `b` occurs in `a` and `c`
      occurs in `b`, then `c` occurs in `a`. */
  lemma IncludesTransitive(a: string, b: string, c: string)
    requires Includes(a, b) && Includes(b, c)
    ensures Includes(a, c)
  {
    var k :| OccursAt(a, b, k);
    var j :| OccursAt(b, c, j);
    assert b[j..j + |c|] == a[k..k + |b|][j..j + |c|];
    var x, y := a[k..k + |b|][j..j + |c|], a[k + j..k + j + |c|];
    assert forall i | 0 <= i < |c| :: x[i] == y[i];
    assert a[k + j..k + j + |c|] == c;
    assert OccursAt(a, c, k + j);
  }
}
