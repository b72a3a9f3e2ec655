/** Text helpers that stand in for the few regular-expression calls of the
    controller. Every pattern it uses is a literal or an alternation of
    literals, so a substring search plus ASCII case folding is enough. */
module Text {

  datatype Option<+T> = None | Some(value: T)

  /** `pat` occurs in `s` starting at position `i`. */
  predicate OccursAt(s: string, pat: string, i: int)
  {
    0 <= i && i + |pat| <= |s| && s[i..i + |pat|] == pat
  }

  /** What `re.search(pat, s)` decides for a pattern of plain characters:
      the first `|pat|` characters are compared, then the search moves one
      character to the right. */
  function Contains(s: string, pat: string): (r: bool)
    ensures r <==> exists i :: OccursAt(s, pat, i)
    decreases |s|
  {
    if |s| < |pat| then false
    else if s[..|pat|] == pat then assert OccursAt(s, pat, 0); true
    else ContainsShift(s, pat); Contains(s[1..], pat)
  }

  /** An occurrence that does not start at position 0 is an occurrence in the tail. */
  lemma ContainsShift(s: string, pat: string)
    requires |pat| <= |s| && s[..|pat|] != pat
    ensures (exists i :: OccursAt(s[1..], pat, i)) <==> (exists i :: OccursAt(s, pat, i))
  {
    forall i | OccursAt(s[1..], pat, i)
      ensures OccursAt(s, pat, i + 1)
    {
      assert s[1..][i..i + |pat|] == s[i + 1..i + 1 + |pat|];
    }
    forall i | OccursAt(s, pat, i)
      ensures OccursAt(s[1..], pat, i - 1)
    {
      assert i != 0;
      assert s[1..][i - 1..i - 1 + |pat|] == s[i..i + |pat|];
    }
  }

  /** ASCII case folding: what `re.IGNORECASE` does on ASCII text. Text
      outside ASCII is left unchanged here. */
  function LowerChar(c: char): char
  {
    if 'A' <= c <= 'Z' then (c as int - 'A' as int + 'a' as int) as char else c
  }

  function Lower(s: string): string
  {
    seq(|s|, i requires 0 <= i < |s| => LowerChar(s[i]))
  }

  /** Case-insensitive substring search. */
  predicate ContainsIgnoreCase(s: string, pat: string)
  {
    Contains(Lower(s), Lower(pat))
  }

  lemma LowerAppend(a: string, b: string)
    ensures Lower(a + b) == Lower(a) + Lower(b)
  {
  }

  /** Folding never introduces a space. */
  lemma LowerKeepsNoSpace(s: string)
    requires ' ' !in s
    ensures ' ' !in Lower(s)
  {
  }

  /** Each position an occurrence covers holds the matching character of the pattern. */
  lemma OccurrenceAt(s: string, pat: string, i: int, k: int)
    requires OccursAt(s, pat, i) && i <= k < i + |pat|
    ensures s[k] == pat[k - i] && s[k] in pat
  {
    assert s[i..i + |pat|][k - i] == s[k];
  }

  /** An occurrence in `b` is an occurrence in `p + b`, shifted by `|p|`. */
  lemma OccursAfterPrefix(p: string, b: string, pat: string, i: int)
    requires OccursAt(b, pat, i)
    ensures OccursAt(p + b, pat, i + |p|)
  {
    assert (p + b)[i + |p|..i + |p| + |pat|] == b[i..i + |pat|];
  }

  /** Every pattern found in `s` is still found after a prefix is put in front. */
  lemma ContainsAfterPrefix(p: string, s: string, pats: seq<string>)
    requires forall k :: 0 <= k < |pats| ==> Contains(s, pats[k])
    ensures forall k :: 0 <= k < |pats| ==> Contains(p + s, pats[k])
  {
    forall k | 0 <= k < |pats|
      ensures Contains(p + s, pats[k])
    {
      var i :| OccursAt(s, pats[k], i);
      OccursAfterPrefix(p, s, pats[k], i);
    }
  }

  /** A string is found at the start of any extension of it. */
  lemma ContainsOwnPrefix(s: string, t: string)
    ensures Contains(s + t, s)
  {
    assert (s + t)[0..|s|] == s;
    assert OccursAt(s + t, s, 0);
  }

  /** Case folding twice is case folding once. */
  lemma LowerTwice(s: string)
    ensures Lower(Lower(s)) == Lower(s)
  {
  }

  /** A pattern without the separator occurs in `a + [sep] + b` exactly when it
      occurs in `a` or in `b`: no occurrence can straddle the separator. */
  lemma {:induction false} ContainsAcrossSeparator(a: string, sep: char, b: string, pat: string)
    requires sep !in pat
    ensures Contains(a + [sep] + b, pat) <==> Contains(a, pat) || Contains(b, pat)
  {
    var s := a + [sep] + b;
    if Contains(s, pat) {
      var i :| OccursAt(s, pat, i);
      if i + |pat| <= |a| {
        assert s[i..i + |pat|] == a[i..i + |pat|];
        assert OccursAt(a, pat, i);
      } else if i > |a| {
        assert s[i..i + |pat|] == b[i - |a| - 1..i - |a| - 1 + |pat|];
        assert OccursAt(b, pat, i - |a| - 1);
      } else {
        OccurrenceAt(s, pat, i, |a|);
        assert false;
      }
    }
    if Contains(a, pat) {
      var i :| OccursAt(a, pat, i);
      assert s[i..i + |pat|] == a[i..i + |pat|];
      assert OccursAt(s, pat, i);
    }
    if Contains(b, pat) {
      var i :| OccursAt(b, pat, i);
      OccursAfterPrefix(a + [sep], b, pat, i);
    }
  }
}
