/** The ASCII subset of Python's string methods used by the trip planner:
    `lower`, `title`, `replace` of one character, `strip` of one character,
    `sep.join(parts)` and the substring test `t in s`. */
module Text {

  predicate IsUpper(c: char) { 'A' <= c <= 'Z' }
  predicate IsLower(c: char) { 'a' <= c <= 'z' }
  predicate IsLetter(c: char) { IsUpper(c) || IsLower(c) }
  predicate IsDigit(c: char) { '0' <= c <= '9' }

  function LowerChar(c: char): char {
    if IsUpper(c) then (c as int + 32) as char else c
  }

  function UpperChar(c: char): char {
    if IsLower(c) then (c as int - 32) as char else c
  }

  /** `s.lower()`: every upper-case letter becomes lower case, nothing else moves. */
  function Lower(s: string): (r: string)
    ensures |r| == |s|
    ensures forall i :: 0 <= i < |s| ==> r[i] == LowerChar(s[i])
  {
    if s == [] then [] else [LowerChar(s[0])] + Lower(s[1..])
  }

  /** `s.replace(a, b)` for one-character `a` and `b`. */
  function ReplaceChar(s: string, a: char, b: char): (r: string)
    ensures |r| == |s|
    ensures forall i :: 0 <= i < |s| ==> r[i] == (if s[i] == a then b else s[i])
  {
    if s == [] then [] else [if s[0] == a then b else s[0]] + ReplaceChar(s[1..], a, b)
  }

  /** The title-casing loop, `afterLetter` telling whether the character before
      `s` was a cased (for ASCII: a letter) character. */
  function TitleFrom(s: string, afterLetter: bool): (r: string)
    ensures |r| == |s|
    ensures |s| > 0 ==> r[0] == (if afterLetter then LowerChar(s[0]) else UpperChar(s[0]))
    ensures forall i :: 1 <= i < |s| ==>
      r[i] == (if IsLetter(s[i - 1]) then LowerChar(s[i]) else UpperChar(s[i]))
  {
    if s == [] then []
    else [if afterLetter then LowerChar(s[0]) else UpperChar(s[0])] + TitleFrom(s[1..], IsLetter(s[0]))
  }

  /** `s.title()`: a letter is upper-cased when it starts a run of letters and
      lower-cased inside one; other characters are kept. */
  function Title(s: string): (r: string)
    ensures |r| == |s|
    ensures forall i :: 0 <= i < |s| ==>
      r[i] == (if i > 0 && IsLetter(s[i - 1]) then LowerChar(s[i]) else UpperChar(s[i]))
  {
    TitleFrom(s, false)
  }

  /** Title-casing ignores the case the letters had. */
  lemma TitleOfLower(s: string)
    ensures Title(Lower(s)) == Title(s)
  {
    var a, b := Title(Lower(s)), Title(s);
    forall i | 0 <= i < |s| ensures a[i] == b[i] {
      CaseChange(s[i]);
      if i > 0 {
        CaseChange(s[i - 1]);
      }
    }
  }

  /** Title-casing twice is title-casing once. */
  lemma TitleIdempotent(s: string)
    ensures Title(Title(s)) == Title(s)
  {
    var t := Title(s);
    forall i | 0 <= i < |s| ensures Title(t)[i] == t[i] {
      CaseChange(s[i]);
      if i > 0 {
        CaseChange(s[i - 1]);
        var j := i - 1;
        assert t[j] == if j > 0 && IsLetter(s[j - 1]) then LowerChar(s[j]) else UpperChar(s[j]);
        assert IsLetter(t[j]) == IsLetter(s[j]);
      }
    }
  }

  /** Changing case keeps letters letters, and each change is idempotent. */
  lemma CaseChange(c: char)
    ensures IsLetter(LowerChar(c)) == IsLetter(c) && IsLetter(UpperChar(c)) == IsLetter(c)
    ensures LowerChar(LowerChar(c)) == LowerChar(c) && UpperChar(UpperChar(c)) == UpperChar(c)
    ensures UpperChar(LowerChar(c)) == UpperChar(c) && LowerChar(UpperChar(c)) == LowerChar(c)
  {
  }

  /** `r` sits in `s` at offset `i` with nothing but `c` on either side of it. */
  predicate Framed(s: string, r: string, c: char, i: int) {
    && 0 <= i && i + |r| <= |s|
    && s[i..i + |r|] == r
    && (forall k :: 0 <= k < i ==> s[k] == c)
    && (forall k :: i + |r| <= k < |s| ==> s[k] == c)
  }

  /** `s.lstrip(c)`. */
  function StripLeading(s: string, c: char): (r: string)
    ensures |r| <= |s| && r == s[|s| - |r|..]
    ensures forall k :: 0 <= k < |s| - |r| ==> s[k] == c
    ensures r == [] || r[0] != c
  {
    if s != [] && s[0] == c then StripLeading(s[1..], c) else s
  }

  /** `s.rstrip(c)`. */
  function StripTrailing(s: string, c: char): (r: string)
    ensures |r| <= |s| && r == s[..|r|]
    ensures forall k :: |r| <= k < |s| ==> s[k] == c
    ensures r == [] || r[|r| - 1] != c
  {
    if s != [] && s[|s| - 1] == c then StripTrailing(s[..|s| - 1], c) else s
  }

  /** `s.strip(c)`: the middle of `s` once every leading and trailing `c` is gone. */
  function Strip(s: string, c: char): (r: string)
    ensures r == [] || (r[0] != c && r[|r| - 1] != c)
    ensures Framed(s, r, c, |s| - |StripLeading(s, c)|)
  {
    var l := StripLeading(s, c);
    var r := StripTrailing(l, c);
    StripFramed(s, c, l, r);
    r
  }

  /** Taking a run of `c` off the front and then off the back of what is
      left leaves a slice framed by `c`. */
  lemma StripFramed(s: string, c: char, l: string, r: string)
    requires |l| <= |s| && l == s[|s| - |l|..] && forall k :: 0 <= k < |s| - |l| ==> s[k] == c
    requires |r| <= |l| && r == l[..|r|] && forall k :: |r| <= k < |l| ==> l[k] == c
    requires (l == [] || l[0] != c) && (r == [] || r[|r| - 1] != c)
    ensures Framed(s, r, c, |s| - |l|)
    ensures r == [] || (r[0] != c && r[|r| - 1] != c)
  {
    assert r != [] ==> r[0] == l[0];
    var n := |s| - |l|;
    assert s[n..n + |r|] == r;
    forall k | n + |r| <= k < |s| ensures s[k] == c {
      assert s[k] == l[k - n];
    }
  }

  lemma {:induction false} StripLeadingAt(s: string, c: char, i: nat)
    requires i <= |s|
    requires forall k :: 0 <= k < i ==> s[k] == c
    requires i == |s| || s[i] != c
    ensures StripLeading(s, c) == s[i..]
  {
    if i > 0 {
      StripLeadingAt(s[1..], c, i - 1);
    }
  }

  lemma {:induction false} StripTrailingAt(s: string, c: char, j: nat)
    requires j <= |s|
    requires forall k :: j <= k < |s| ==> s[k] == c
    requires j == 0 || s[j - 1] != c
    ensures StripTrailing(s, c) == s[..j]
  {
    if j < |s| {
      assert s[..|s| - 1][..j] == s[..j];
      StripTrailingAt(s[..|s| - 1], c, j);
    }
  }

  /** Strip is characterised by its contract: any slice of `s` framed by `c`
      whose own ends are not `c` is the stripped string. */
  lemma StripUnique(s: string, c: char, t: string, i: int)
    requires Framed(s, t, c, i)
    requires t == [] || (t[0] != c && t[|t| - 1] != c)
    ensures Strip(s, c) == t
  {
    if t == [] {
      StripLeadingAt(s, c, |s|);
      assert StripLeading(s, c) == [];
    } else {
      StripLeadingAt(s, c, i);
      var l := s[i..];
      TrailingFrame(s, c, t, i, l);
      StripTrailingAt(l, c, |t|);
    }
  }

  /** What follows offset `i` in a frame is the framed slice and then `c`s. */
  lemma TrailingFrame(s: string, c: char, t: string, i: int, l: string)
    requires Framed(s, t, c, i) && l == s[i..]
    ensures l[..|t|] == t && (forall k :: |t| <= k < |l| ==> l[k] == c)
  {
    forall k | |t| <= k < |l| ensures l[k] == c {
      assert l[k] == s[i + k];
    }
  }

  /** `sep.join(parts)`. */
  function Join(sep: string, parts: seq<string>): string
  {
    if |parts| == 0 then ""
    else if |parts| == 1 then parts[0]
    else parts[0] + sep + Join(sep, parts[1..])
  }

  /** Joining one more part appends the separator and that part. */
  lemma {:induction false} JoinSnoc(sep: string, parts: seq<string>, last: string)
    requires |parts| > 0
    ensures Join(sep, parts + [last]) == Join(sep, parts) + sep + last
  {
    if |parts| == 1 {
      assert parts + [last] == [parts[0], last];
    } else {
      assert (parts + [last])[1..] == parts[1..] + [last];
      JoinSnoc(sep, parts[1..], last);
    }
  }

  /** When no part is empty, the join is empty exactly when there are no parts. */
  lemma {:induction false} JoinEmpty(sep: string, parts: seq<string>)
    requires forall i :: 0 <= i < |parts| ==> parts[i] != ""
    ensures Join(sep, parts) == "" <==> parts == []
  {
    if |parts| > 1 {
      assert |Join(sep, parts)| >= |parts[0]| > 0;
    }
  }

  /** Python's `t in s` for strings. */
  predicate Contains(s: string, t: string) {
    exists i | 0 <= i <= |s| - |t| :: OccursAt(s, t, i)
  }

  /** `t` occurs in `s` starting at index `i`. */
  predicate OccursAt(s: string, t: string, i: int) {
    0 <= i <= |s| - |t| && s[i..i + |t|] == t
  }

  /** A join starts with whatever its first part starts with. */
  lemma JoinPrefix(sep: string, parts: seq<string>, u: string)
    requires |parts| > 0 && |u| <= |parts[0]| && parts[0][..|u|] == u
    ensures |u| <= |Join(sep, parts)| && Join(sep, parts)[..|u|] == u
  {
    if |parts| > 1 {
      var r := Join(sep, parts);
      assert r == parts[0] + (sep + Join(sep, parts[1..]));
      assert r[..|u|] == parts[0][..|u|];
    }
  }

  /** A join ends with whatever its last part ends with. */
  lemma {:induction false} JoinSuffix(sep: string, parts: seq<string>, last: string, u: string)
    requires |parts| > 0 && parts[|parts| - 1] == last
    requires |u| <= |last| && last[|last| - |u|..] == u
    ensures |u| <= |Join(sep, parts)| && Join(sep, parts)[|Join(sep, parts)| - |u|..] == u
  {
    if |parts| > 1 {
      var tail := Join(sep, parts[1..]);
      JoinSuffix(sep, parts[1..], last, u);
      var r := Join(sep, parts);
      assert r == parts[0] + sep + tail;
      assert r[|r| - |u|..] == tail[|tail| - |u|..];
    }
  }

  /** What `b` contains, `a + b` contains too. */
  lemma ContainsAfter(a: string, b: string, t: string)
    requires Contains(b, t)
    ensures Contains(a + b, t)
  {
    var i :| 0 <= i <= |b| - |t| && OccursAt(b, t, i);
    assert (a + b)[|a| + i..|a| + i + |t|] == b[i..i + |t|];
    assert OccursAt(a + b, t, |a| + i);
  }

  /** Every part occurs in the join. */
  lemma {:induction false} JoinContains(sep: string, parts: seq<string>, i: nat)
    requires i < |parts|
    ensures Contains(Join(sep, parts), parts[i])
  {
    var r := Join(sep, parts);
    if i == 0 {
      JoinPrefix(sep, parts, parts[0]);
      assert OccursAt(r, parts[0], 0);
    } else {
      JoinContains(sep, parts[1..], i - 1);
      ContainsAfter(parts[0] + sep, Join(sep, parts[1..]), parts[i]);
    }
  }

  lemma ContainsMiddle(a: string, t: string, b: string)
    ensures Contains(a + t + b, t)
  {
    var s := a + t + b;
    assert s[|a|..|a| + |t|] == t;
    assert OccursAt(s, t, |a|);
  }
}
