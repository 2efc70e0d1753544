/**
 Byte strings as the Go code uses them. Characters stand for bytes; case folding
 and white space are those of ASCII.
 */
module Text {

  const NUL: char := 0 as char

  datatype Option<+T> = None | Some(value: T)

  predicate IsSpace(c: char) {
    c == ' ' || 9 <= c as int <= 13
  }

  function TrimLeft(s: string): string {
    if s != "" && IsSpace(s[0]) then TrimLeft(s[1..]) else s
  }

  function TrimRight(s: string): string {
    if s != "" && IsSpace(s[|s| - 1]) then TrimRight(s[..|s| - 1]) else s
  }

  /** `strings.TrimSpace` */
  function Trim(s: string): string {
    TrimRight(TrimLeft(s))
  }

  /** Text that begins and ends visibly. */
  predicate Tight(s: string) {
    s == "" || (!IsSpace(s[0]) && !IsSpace(s[|s| - 1]))
  }

  predicate AllSpace(s: string) {
    forall i :: 0 <= i < |s| ==> IsSpace(s[i])
  }

  lemma {:induction false} TrimLeftSplits(s: string) returns (pre: string)
    ensures s == pre + TrimLeft(s) && AllSpace(pre) && (TrimLeft(s) == "" || !IsSpace(TrimLeft(s)[0]))
  {
    if s != "" && IsSpace(s[0]) {
      var rest := TrimLeftSplits(s[1..]);
      pre := [s[0]] + rest;
      assert s == [s[0]] + s[1..] && pre + TrimLeft(s) == [s[0]] + (rest + TrimLeft(s));
    } else {
      pre := "";
      assert pre + s == s;
    }
  }

  lemma {:induction false} TrimRightSplits(l: string) returns (post: string)
    ensures l == TrimRight(l) + post && AllSpace(post)
    ensures TrimRight(l) == "" || !IsSpace(TrimRight(l)[|TrimRight(l)| - 1])
  {
    if l != "" && IsSpace(l[|l| - 1]) {
      var rest := TrimRightSplits(l[..|l| - 1]);
      post := rest + [l[|l| - 1]];
      assert l == l[..|l| - 1] + [l[|l| - 1]] && TrimRight(l) + post == (TrimRight(l) + rest) + [l[|l| - 1]];
    } else {
      post := "";
      assert l + post == l;
    }
  }

  /** Trimming takes white space off both ends and nothing else. */
  lemma {:induction false} TrimSplits(s: string) returns (pre: string, post: string)
    ensures s == pre + Trim(s) + post && AllSpace(pre) && AllSpace(post) && Tight(Trim(s))
  {
    pre := TrimLeftSplits(s);
    post := TrimRightSplits(TrimLeft(s));
    JoinedEnds(pre, Trim(s), post);
    StartsAlike(TrimLeft(s), Trim(s), post);
  }

  lemma {:induction false} JoinedEnds(pre: string, t: string, post: string)
    ensures pre + (t + post) == pre + t + post
  {
  }

  lemma {:induction false} StartsAlike(l: string, t: string, post: string)
    requires l == t + post
    ensures t != "" ==> l != "" && l[0] == t[0]
  {
  }

  lemma {:induction false} TightStays(s: string)
    requires Tight(s)
    ensures Trim(s) == s
  {
  }

  lemma {:induction false} SpaceTrims(pre: string, s: string)
    requires AllSpace(pre)
    ensures TrimLeft(pre + s) == TrimLeft(s)
  {
    if pre == "" {
      assert pre + s == s;
    } else {
      assert (pre + s)[1..] == pre[1..] + s;
      SpaceTrims(pre[1..], s);
    }
  }

  lemma {:induction false} SpaceTrimsRight(s: string, post: string)
    requires AllSpace(post)
    ensures TrimRight(s + post) == TrimRight(s)
  {
    if post == "" {
      assert s + post == s;
    } else {
      assert (s + post)[..|s + post| - 1] == s + post[..|post| - 1];
      SpaceTrimsRight(s, post[..|post| - 1]);
    }
  }

  /** Padding a tight text and trimming it gives it back. */
  lemma {:induction false} TrimUndoesPadding(pre: string, s: string, post: string)
    requires AllSpace(pre) && AllSpace(post) && Tight(s)
    ensures Trim(pre + s + post) == s
  {
    assert pre + s + post == pre + (s + post);
    SpaceTrims(pre, s + post);
    if s == "" {
      assert s + post == post + "";
      SpaceTrims(post, "");
    } else {
      SpaceTrimsRight(s, post);
    }
  }

  function LowerChar(c: char): char {
    if 'A' <= c <= 'Z' then (c as int + 32) as char else c
  }

  /** `strings.ToLower` */
  function Lower(s: string): (r: string)
    ensures |r| == |s|
  {
    seq(|s|, i requires 0 <= i < |s| => LowerChar(s[i]))
  }

  predicate HasPrefix(s: string, p: string) {
    |p| <= |s| && s[..|p|] == p
  }

  predicate HasSuffix(s: string, p: string) {
    |p| <= |s| && s[|s| - |p|..] == p
  }

  predicate Lacks(s: string, c: char) {
    forall i :: 0 <= i < |s| ==> s[i] != c
  }

  /** `strings.Split` on one separator character. */
  function Split(s: string, sep: char): (r: seq<string>)
    ensures r != []
  {
    if s == "" then [""]
    else
      var front, c := Split(s[..|s| - 1], sep), s[|s| - 1];
      if c == sep then front + [""] else front[|front| - 1 := front[|front| - 1] + [c]]
  }

  lemma {:induction false} SplitSingle(s: string, sep: char)
    requires Lacks(s, sep)
    ensures Split(s, sep) == [s]
  {
    if s != "" {
      SplitSingle(s[..|s| - 1], sep);
      assert s[..|s| - 1] + [s[|s| - 1]] == s;
    }
  }

  /** Text without a separator extends the last field. */
  lemma {:induction false} SplitAppend(s: string, x: string, sep: char)
    requires Lacks(x, sep)
    ensures var f := Split(s, sep); Split(s + x, sep) == f[|f| - 1 := f[|f| - 1] + x]
  {
    var f := Split(s, sep);
    if x == "" {
      assert s + x == s && f[|f| - 1] + x == f[|f| - 1];
    } else {
      var y, c := x[..|x| - 1], x[|x| - 1];
      SplitAppend(s, y, sep);
      assert (s + x)[..|s + x| - 1] == s + y && (s + x)[|s + x| - 1] == c;
      assert f[|f| - 1] + y + [c] == f[|f| - 1] + x;
    }
  }

  lemma {:induction false} SplitJoin(a: string, b: string, sep: char)
    ensures Split(a + [sep] + b, sep) == Split(a, sep) + Split(b, sep)
  {
    var all := a + [sep] + b;
    if b == "" {
      assert all[..|all| - 1] == a;
    } else {
      var y, c := b[..|b| - 1], b[|b| - 1];
      SplitJoin(a, y, sep);
      assert all[..|all| - 1] == a + [sep] + y && all[|all| - 1] == c;
    }
  }

  /** Every field but the text itself is free of the separator. */
  lemma {:induction false} SplitFieldsLack(s: string, sep: char, other: char, i: nat)
    requires i < |Split(s, sep)|
    ensures Lacks(Split(s, sep)[i], sep)
    ensures Lacks(s, other) ==> Lacks(Split(s, sep)[i], other)
  {
    if s != "" {
      var front := s[..|s| - 1];
      SplitFieldsLack(front, sep, other, if i < |Split(front, sep)| then i else 0);
      assert Lacks(s, other) ==> Lacks(front, other);
    }
  }
}
