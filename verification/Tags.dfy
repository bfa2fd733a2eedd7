/**
  Tag names (`internal/domain/tag.go`): what normalizing does to them, once and
  twice, told by their characters.
 */
module Tags {
  import opened Text

  function TrimHash(s: string): string {
    if s != [] && s[0] == '#' then s[1..] else s
  }

  /** `NormalizeTag`. */
  function NormalizeTag(s: string): string {
    Normalize(TrimHash(TrimSpace(s)))
  }

  // ---- Names that normalizing leaves alone ----

  /** No upper-case letter, no white space at the ends, and no leading hash. */
  predicate NormalName(s: string) {
    && (forall c :: c in s ==> !('A' <= c <= 'Z'))
    && (s == [] || (!IsSpace(s[0]) && !IsSpace(s[|s| - 1]) && s[0] != '#'))
  }

  lemma {:induction false} LowerLast(s: string, c: char)
    ensures Lower(s + [c]) == s + [c] <==> Lower(s) == s && !('A' <= c <= 'Z')
    ensures (forall d :: d in s + [c] ==> !('A' <= d <= 'Z')) <==>
      (forall d :: d in s ==> !('A' <= d <= 'Z')) && !('A' <= c <= 'Z')
  {
    assert (s + [c])[..|s|] == s;
    assert Lower(s + [c])[..|s|] == Lower(s) && Lower(s + [c])[|s|] == LowerChar(c);
    assert c in s + [c] && forall d :: d in s ==> d in s + [c];
  }

  lemma {:induction false} LowerFixed(s: string)
    ensures Lower(s) == s <==> forall c :: c in s ==> !('A' <= c <= 'Z')
  {
    if s != [] {
      var n := |s| - 1;
      LowerFixed(s[..n]);
      LowerLast(s[..n], s[n]);
      assert s == s[..n] + [s[n]];
    }
  }

  lemma {:induction false} TrimLeftShort(s: string)
    ensures |TrimLeft(s)| <= |s|
    ensures |TrimLeft(s)| == |s| ==> TrimLeft(s) == s && (s == [] || !IsSpace(s[0]))
  {
    if s != [] && IsSpace(s[0]) {
      TrimLeftShort(s[1..]);
    }
  }

  lemma {:induction false} TrimRightShort(s: string)
    ensures |TrimRight(s)| <= |s|
    ensures |TrimRight(s)| == |s| ==> TrimRight(s) == s && (s == [] || !IsSpace(s[|s| - 1]))
  {
    if s != [] && IsSpace(s[|s| - 1]) {
      TrimRightShort(s[..|s| - 1]);
    }
  }

  /** Trimming shortens unless there is nothing to trim. */
  lemma {:induction false} TrimShort(s: string)
    ensures |TrimSpace(s)| <= |s|
    ensures |TrimSpace(s)| == |s| ==> TrimSpace(s) == s && (s == [] || (!IsSpace(s[0]) && !IsSpace(s[|s| - 1])))
  {
    TrimLeftShort(s);
    TrimRightShort(TrimLeft(s));
  }

  /** Normalizing leaves a name alone exactly when it is a normal one. */
  lemma {:induction false} NormalNameExactly(s: string)
    ensures NormalizeTag(s) == s <==> NormalName(s)
  {
    LowerFixed(s);
    TrimShort(s);
    TrimShort(TrimHash(TrimSpace(s)));
    if NormalName(s) {
      TrimNone(s);
    }
  }

  // ---- Names that normalizing uses up ----

  /** Nothing but white space and at most n hashes. */
  predicate Bare(s: string, n: nat) {
    OnlyMarks(s) && Hashes(s) <= n
  }

  predicate OnlyMarks(s: string) {
    forall c :: c in s ==> IsSpace(c) || c == '#'
  }

  function Hashes(s: string): nat {
    multiset(s)['#']
  }

  lemma {:induction false} HashesAppend(a: string, b: string)
    ensures Hashes(a + b) == Hashes(a) + Hashes(b)
    ensures OnlyMarks(a + b) <==> OnlyMarks(a) && OnlyMarks(b)
  {
    forall c ensures c in a + b <==> c in a || c in b {
    }
  }

  lemma {:induction false} TrimLeftMarks(s: string)
    ensures Hashes(TrimLeft(s)) == Hashes(s) && (OnlyMarks(TrimLeft(s)) <==> OnlyMarks(s))
    ensures TrimLeft(s) == [] || !IsSpace(TrimLeft(s)[0])
  {
    if s != [] && IsSpace(s[0]) {
      TrimLeftMarks(s[1..]);
      HashesAppend([s[0]], s[1..]);
      assert s == [s[0]] + s[1..];
    }
  }

  lemma {:induction false} TrimRightMarks(s: string)
    ensures Hashes(TrimRight(s)) == Hashes(s) && (OnlyMarks(TrimRight(s)) <==> OnlyMarks(s))
    ensures TrimRight(s) == [] || (TrimRight(s)[0] == s[0] && !IsSpace(TrimRight(s)[|TrimRight(s)| - 1]))
  {
    if s != [] && IsSpace(s[|s| - 1]) {
      TrimRightMarks(s[..|s| - 1]);
      HashesAppend(s[..|s| - 1], [s[|s| - 1]]);
      assert s == s[..|s| - 1] + [s[|s| - 1]];
    }
  }

  /** Trimming takes away no hash and nothing but white space. */
  lemma {:induction false} TrimMarks(s: string)
    ensures Hashes(TrimSpace(s)) == Hashes(s) && (OnlyMarks(TrimSpace(s)) <==> OnlyMarks(s))
    ensures TrimSpace(s) == [] || !IsSpace(TrimSpace(s)[0])
  {
    TrimLeftMarks(s);
    TrimRightMarks(TrimLeft(s));
  }

  lemma {:induction false} LowerMarks(s: string)
    ensures Hashes(Lower(s)) == Hashes(s) && (OnlyMarks(Lower(s)) <==> OnlyMarks(s))
  {
    if s != [] {
      var n := |s| - 1;
      LowerMarks(s[..n]);
      HashesAppend(s[..n], [s[n]]);
      HashesAppend(Lower(s[..n]), [LowerChar(s[n])]);
      assert s == s[..n] + [s[n]];
      LowerMark(s[n]);
    }
  }

  lemma {:induction false} LowerMark(c: char)
    ensures LowerChar(c) == '#' <==> c == '#'
    ensures OnlyMarks([LowerChar(c)]) <==> OnlyMarks([c])
    ensures Hashes([LowerChar(c)]) == Hashes([c])
  {
    assert c in [c] && LowerChar(c) in [LowerChar(c)];
  }

  /** Normalizing a name of marks alone takes one hash from it. */
  lemma {:induction false} BareStep(s: string, n: nat)
    ensures Bare(NormalizeTag(s), n) <==> Bare(s, n + 1)
  {
    var t := TrimSpace(s);
    var u := TrimHash(t);
    TrimMarks(s);
    TrimMarks(u);
    LowerMarks(TrimSpace(u));
    if t != [] && t[0] == '#' {
      HashesAppend(['#'], t[1..]);
      assert t == ['#'] + t[1..];
    } else if t != [] {
      assert t[0] in t;
    }
  }

  lemma {:induction false} BareEmpty(s: string)
    ensures NormalizeTag(s) == [] <==> Bare(NormalizeTag(s), 0)
  {
    var u := TrimSpace(TrimHash(TrimSpace(s)));
    TrimMarks(TrimHash(TrimSpace(s)));
    LowerMarks(u);
    if u != [] {
      assert u[0] in u && u[0] in multiset(u);
    }
  }

  /** A name normalizes to nothing exactly when it is white space and at most one hash. */
  lemma {:induction false} EmptyExactly(s: string)
    ensures NormalizeTag(s) == [] <==> Bare(s, 1)
  {
    BareEmpty(s);
    BareStep(s, 0);
  }

  /** It does so in two steps exactly when it is white space and at most two hashes. */
  lemma {:induction false} EmptyTwiceExactly(s: string)
    ensures NormalizeTag(NormalizeTag(s)) == [] <==> Bare(s, 2)
  {
    EmptyExactly(NormalizeTag(s));
    BareStep(s, 1);
  }

  /** Normalizing strips one hash. */
  lemma {:induction false} StripsOne(s: string)
    requires s != [] && !IsSpace(s[0]) && !IsSpace(s[|s| - 1])
    ensures NormalizeTag("#" + s) == Lower(s)
  {
    TrimNone("#" + s);
    TrimNone(s);
    assert TrimHash("#" + s) == s;
  }

  /**
    Normalizing is not idempotent: what it makes of two hashes before a lower-case
    name still has one, which the next normalizing strips.
   */
  lemma {:induction false} TwoHashes(s: string)
    requires s != [] && !IsSpace(s[0]) && !IsSpace(s[|s| - 1]) && Lower(s) == s
    ensures NormalizeTag("#" + ("#" + s)) == "#" + s && NormalizeTag("#" + s) == s && !NormalName("#" + s)
  {
    LowerPrepend('#', s);
    StripsOne("#" + s);
    StripsOne(s);
  }

  /** A normal name and the same with two hashes before it: apart when normalized once, equal when twice. */
  lemma {:induction false} Twins(s: string)
    requires s != [] && NormalName(s)
    ensures NormalizeTag(s) == s && NormalizeTag("#" + ("#" + s)) == "#" + s != s
    ensures NormalizeTag("#" + s) == s && !Bare(s, 2) && !Bare("#" + ("#" + s), 2)
  {
    NormalNameExactly(s);
    TwoHashes(s);
    EmptyTwiceExactly(s);
    EmptyTwiceExactly("#" + ("#" + s));
  }

  /** Two hashes become one, and one becomes nothing. */
  lemma {:induction false} TwoBareHashes()
    ensures NormalizeTag("##") == "#" && Bare("#", 1) && Bare("##", 2)
  {
    assert Hashes("#") == 1 && "##" == "#" + "#" && "#" == "#" + "";
    HashesAppend("#", "#");
    StripsOne("#");
    LowerPrepend('#', "");
  }
}
