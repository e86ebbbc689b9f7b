/** The two string tests the archive checks use: Python's `str.endswith` and
    the substring operator `in`. */
module Text {

  /** `t` occurs in `s` starting at index `i`. */
  ghost predicate OccursAt(s: string, t: string, i: int) {
    0 <= i && i + |t| <= |s| && s[i..i + |t|] == t
  }

  /** A string placed between two others is contained in the result. */
  lemma ContainsMiddle(a: string, t: string, b: string)
    ensures Contains(a + t + b, t)
  {
    assert (a + t + b)[|a|..|a| + |t|] == t;
    assert OccursAt(a + t + b, t, |a|);
  }

  /** A string ends with what was appended to it last. */
  lemma EndsWithAppended(a: string, b: string)
    ensures EndsWith(a + b, b)
  {
    assert (a + b)[|a|..] == b;
  }

  /** `s.endswith(suffix)`: the suffix occupies the last `|suffix|` positions
      of `s`. An empty suffix always matches, and a string that ends with a
      suffix also contains it. */
  function EndsWith(s: string, suffix: string): (b: bool)
    ensures b <==> OccursAt(s, suffix, |s| - |suffix|)
    ensures suffix == [] ==> b
    ensures b ==> Contains(s, suffix)
  {
    |suffix| <= |s| && s[|s| - |suffix|..] == suffix
  }

  /** `t in s`: the substring test, computed by trying every start position in
      turn; the result says that `t` occurs somewhere in `s`. */
  function Contains(s: string, t: string): (b: bool)
    ensures b <==> exists i :: OccursAt(s, t, i)
    decreases |s|
  {
    if t <= s then
      assert OccursAt(s, t, 0);
      true
    else if |s| == 0 then
      false
    else
      var b := Contains(s[1..], t);
      if b then
        assert exists i :: OccursAt(s, t, i) by {
          var i :| OccursAt(s[1..], t, i);
          assert OccursAt(s, t, i + 1);
        }
        true
      else
        assert forall i :: OccursAt(s, t, i) ==> i == 0 || OccursAt(s[1..], t, i - 1);
        false
  }

}
