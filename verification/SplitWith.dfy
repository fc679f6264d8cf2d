/** SplitWith of utils.cc, which splits PATH. */
module SplitWith {
  import opened Outcomes
  import opened Strings

  /** All the fields of str: those in front of a delimiter, and the last one. */
  datatype Fields = Fields(closed: seq<string>, last: string)

  function Split(str: string, delim: string): (r: Fields)
    requires delim != []
    decreases |str|
  {
    var i := Find(str, delim);
    if i.None? then Fields([], str)
    else
      var rest := Split(str[i.value + |delim|..], delim);
      Fields([str[..i.value]] + rest.closed, rest.last)
  }

  function Joined(fields: seq<string>, delim: string): (r: string) {
    if fields == [] then [] else fields[0] + delim + Joined(fields[1..], delim)
  }

  /** The fields, with the delimiters between them, are the whole string. */
  lemma {:induction false} SplitIsWhole(str: string, delim: string)
    requires delim != []
    ensures Joined(Split(str, delim).closed, delim) + Split(str, delim).last == str
    decreases |str|
  {
    hide Find, Joined;
    var i := Find(str, delim);
    if i.Some? {
      var first, rest := str[..i.value], str[i.value + |delim|..];
      var tail := Split(rest, delim);
      SplitIsWhole(rest, delim);
      JoinedCons(first, tail.closed, delim);
      Regroup(first + delim, Joined(tail.closed, delim), tail.last);
      Cut(str, i.value, i.value + |delim|);
    } else {
      JoinedNil(delim, str);
    }
  }

  lemma JoinedNil(delim: string, s: string)
    ensures Joined([], delim) + s == s
  {
  }

  lemma JoinedCons(f: string, fields: seq<string>, delim: string)
    ensures Joined([f] + fields, delim) == f + delim + Joined(fields, delim)
  {
  }

  lemma Regroup(a: string, b: string, c: string)
    ensures a + b + c == a + (b + c)
  {
  }

  lemma Cut(s: string, i: nat, j: nat)
    requires i <= j <= |s|
    ensures s == s[..i] + s[i..j] + s[j..]
  {
  }

  /** No field holds a delimiter. */
  lemma {:induction false} FieldsAreClean(str: string, delim: string)
    requires delim != []
    ensures Find(Split(str, delim).last, delim).None?
    ensures forall f :: f in Split(str, delim).closed ==> Find(f, delim).None?
    decreases |str|
  {
    hide Find;
    var i := Find(str, delim);
    if i.Some? {
      FieldsAreClean(str[i.value + |delim|..], delim);
      NoneBefore(str, delim, i.value);
    }
  }

  lemma {:induction false} NoneBefore(str: string, delim: string, n: nat)
    requires delim != [] && Find(str, delim).Some? && n <= Find(str, delim).value
    ensures Find(str[..n], delim).None?
  {
    var front := str[..n];
    assert delim <= front ==> delim <= str;
    if n > 0 {
      var tail := str[1..];
      assert Find(str, delim).value == Find(tail, delim).value + 1;
      NoneBefore(tail, delim, n - 1);
      assert front[1..] == tail[..n - 1];
    }
  }

  lemma JoinedGone(str: string, delim: string)
    requires delim != []
    ensures Joined(Split(str, delim).closed, delim) == str <==> Split(str, delim).last == []
  {
    SplitIsWhole(str, delim);
    var j, l := Joined(Split(str, delim).closed, delim), Split(str, delim).last;
    assert |j + l| == |j| + |l|;
    if l == [] {
      assert j + l == j;
    }
  }

  lemma SplitStep(str: string, delim: string, before: seq<string>)
    requires delim != [] && Find(str, delim).Some?
    ensures var i := Find(str, delim).value;
      before + Split(str, delim).closed == (before + [str[..i]]) + Split(str[i + |delim|..], delim).closed
  {
    hide Find, Split;
    var i := Find(str, delim).value;
    SplitOnce(str, delim);
    Regrouped(before, [str[..i]], Split(str[i + |delim|..], delim).closed);
  }

  lemma SplitOnce(str: string, delim: string)
    requires delim != [] && Find(str, delim).Some?
    ensures var i := Find(str, delim).value;
      Split(str, delim).closed == [str[..i]] + Split(str[i + |delim|..], delim).closed
  {
    hide Find;
  }

  lemma Regrouped(a: seq<string>, b: seq<string>, c: seq<string>)
    ensures a + (b + c) == (a + b) + c
  {
  }

  lemma SplitDone(str: string, delim: string, before: seq<string>)
    requires delim != [] && Find(str, delim).None?
    ensures before + Split(str, delim).closed == before
  {
  }

  lemma JoinedEnds(fields: seq<string>, delim: string)
    requires fields != [] && delim != []
    ensures |Joined(fields, delim)| > 0
    ensures Joined(fields, delim)[|Joined(fields, delim)| - 1] == delim[|delim| - 1]
  {
    if |fields| > 1 {
      JoinedEnds(fields[1..], delim);
    }
  }

  /** With a delimiter of one character, the last field is empty, and nothing is
      lost, exactly when the string is empty or ends in the delimiter. */
  lemma {:induction false} NothingLostIff(str: string, c: char)
    ensures Split(str, [c]).last == [] <==> str == [] || str[|str| - 1] == c
  {
    var f := Split(str, [c]);
    SplitIsWhole(str, [c]);
    FieldsAreClean(str, [c]);
    FindChar(f.last, c);
    hide Split, Find;
    var j := Joined(f.closed, [c]);
    assert str == j + f.last;
    if f.last != [] {
      assert str[|str| - 1] == f.last[|f.last| - 1];
    } else if f.closed != [] {
      JoinedEnds(f.closed, [c]);
      assert str == j;
    }
  }

  /** So the last directory of a PATH that does not end in a colon is lost. */
  lemma LastDirectoryLost()
    ensures Split("/a:/b", ":") == Fields(["/a"], "/b")
  {
    FindColon();
    assert "/a:/b"[..2] == "/a" && "/a:/b"[3..] == "/b";
    assert Split("/b", ":") == Fields([], "/b");
    assert ["/a"] + [] == ["/a"];
  }

  lemma FindColon()
    ensures Find("/a:/b", ":") == Some(2) && Find("/b", ":") == None
  {
    assert "/a:/b"[1..] == "a:/b" && "a:/b"[1..] == ":/b";
    assert ":/b"[0] == ':' && "a:/b"[0] != ':' && "/a:/b"[0] != ':';
    assert Find(":/b", ":") == Some(0);
    assert Find("a:/b", ":") == Some(1);
    assert "/b"[1..] == "b" && "b"[1..] == "" && Find("", ":") == None;
    assert Find("b", ":") == None;
  }

  /** With a longer one that is not so: "aaa" ends in "aa", and its last "a" is lost. */
  lemma LongDelimiterLoses()
    ensures "aaa"[1..] == "aa" && Split("aaa", "aa") == Fields([""], "a")
  {
    assert "aa" <= "aaa" && Find("aaa", "aa") == Some(0);
    assert "aaa"[2..] == "a" && "aaa"[..0] == "";
    assert Find("a"[1..], "aa") == None;
    assert Find("a", "aa") == None;
    assert Split("a", "aa") == Fields([], "a");
  }

  lemma LostIff(str: string, delim: string)
    requires |delim| == 1
    ensures Split(str, delim).last == [] <==> str == [] || str[|str| - 1] == delim[0]
  {
    assert delim == [delim[0]];
    NothingLostIff(str, delim[0]);
  }

  /** The loop returns the fields in front of a delimiter and drops the last one. */
  method SplitLoop(str: string, delim: string) returns (ret: seq<string>)
    requires delim != []
    ensures ret == Split(str, delim).closed
    ensures Joined(ret, delim) == str <==> Split(str, delim).last == []
    ensures |delim| == 1 ==> (Joined(ret, delim) == str <==> str == [] || str[|str| - 1] == delim[0])
  {
    hide Find, Split, Joined;
    JoinedGone(str, delim);
    if |delim| == 1 {
      LostIff(str, delim);
    }
    ret := [];
    var rest := str;
    assert [] + Split(str, delim).closed == Split(str, delim).closed;
    var pos := Find(rest, delim);
    while pos.Some?
      invariant pos == Find(rest, delim)
      invariant Split(str, delim).closed == ret + Split(rest, delim).closed
      decreases |rest|
    {
      SplitStep(rest, delim, ret);
      ret := ret + [rest[..pos.value]];
      rest := rest[pos.value + |delim|..];
      pos := Find(rest, delim);
    }
    SplitDone(rest, delim, ret);
  }
}
