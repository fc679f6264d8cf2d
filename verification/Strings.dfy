/** std::string::find. */
module Strings {
  import opened Outcomes

  predicate OccursAt(s: string, t: string, i: nat) {
    i <= |s| && t <= s[i..]
  }

  /** The first index at which t occurs in s. */
  function Find(s: string, t: string): (r: Option<nat>)
    ensures r.Some? ==> r.value + |t| <= |s| && s[r.value..r.value + |t|] == t
  {
    if t <= s then Some(0)
    else if s == [] then None
    else
      var r := Find(s[1..], t);
      if r.None? then None else
      assert s[r.value + 1..r.value + 1 + |t|] == s[1..][r.value..r.value + |t|];
      Some(r.value + 1)
  }

  predicate Contains(s: string, t: string) {
    Find(s, t).Some?
  }

  lemma OccursInTail(s: string, t: string, i: nat)
    requires 0 < i <= |s|
    ensures OccursAt(s, t, i) <==> OccursAt(s[1..], t, i - 1)
  {
    assert s[1..][i - 1..] == s[i..];
  }

  /** Find finds the first occurrence, and finds nothing only if there is none. */
  lemma {:induction false} FindIsFirst(s: string, t: string, i: nat)
    ensures Find(s, t).Some? ==> OccursAt(s, t, Find(s, t).value)
    ensures OccursAt(s, t, i) ==> Find(s, t).Some? && Find(s, t).value <= i
  {
    if t <= s {
      assert s[0..] == s;
    } else if s == [] {
      assert s[0..] == s;
    } else {
      FindIsFirst(s[1..], t, if i > 0 then i - 1 else 0);
      if Find(s[1..], t).Some? {
        OccursInTail(s, t, Find(s[1..], t).value + 1);
      }
      if 0 < i <= |s| {
        OccursInTail(s, t, i);
      } else {
        assert s[0..] == s;
      }
    }
  }

  lemma {:induction false} FindChar(s: string, c: char)
    ensures Find(s, [c]).Some? <==> c in s
  {
    if s != [] {
      FindChar(s[1..], c);
      assert [c] <= s <==> s[0] == c;
    }
  }
}
