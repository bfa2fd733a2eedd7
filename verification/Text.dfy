/**
  The string operations the program takes from Go's `strings` and `strconv`,
  on ASCII letters and white space.
 */
module Text {
  predicate IsSpace(c: char) {
    c == ' ' || c == '\t' || c == '\n' || c == '\r' || c == 11 as char || c == 12 as char
  }

  function LowerChar(c: char): char {
    if 'A' <= c <= 'Z' then (c as int + 32) as char else c
  }

  /** `strings.ToLower`. */
  function Lower(s: string): (r: string)
    ensures |r| == |s|
  {
    if s == [] then [] else Lower(s[..|s| - 1]) + [LowerChar(s[|s| - 1])]
  }

  function TrimLeft(s: string): string {
    if s == [] || !IsSpace(s[0]) then s else TrimLeft(s[1..])
  }

  function TrimRight(s: string): string {
    if s == [] || !IsSpace(s[|s| - 1]) then s else TrimRight(s[..|s| - 1])
  }

  /** `strings.TrimSpace`. */
  function TrimSpace(s: string): string {
    TrimRight(TrimLeft(s))
  }

  /** Trimmed and lower-cased. */
  function Normalize(s: string): string {
    Lower(TrimSpace(s))
  }

  lemma {:induction false} TrimNone(s: string)
    requires s == [] || (!IsSpace(s[0]) && !IsSpace(s[|s| - 1]))
    ensures TrimSpace(s) == s
  {
  }

  lemma {:induction false} LowerPrepend(c: char, s: string)
    ensures Lower([c] + s) == [LowerChar(c)] + Lower(s)
  {
    var t := [c] + s;
    if s == [] {
      assert t[..0] == [];
    } else {
      assert t[..|t| - 1] == [c] + s[..|s| - 1];
      LowerPrepend(c, s[..|s| - 1]);
    }
  }

  // ---- What normalizing means ----

  /** The ASCII white space: tab, line feed, vertical tab, form feed, carriage return and space. */
  predicate Blank(c: char) {
    9 <= c as int <= 13 || c as int == 32
  }

  predicate AllBlank(s: string) {
    forall i :: 0 <= i < |s| ==> Blank(s[i])
  }

  /** No white space at either end. */
  predicate Trimmed(s: string) {
    s != [] ==> !Blank(s[0]) && !Blank(s[|s| - 1])
  }

  lemma {:induction false} TrimLeftMeaning(s: string) returns (a: string)
    ensures s == a + TrimLeft(s) && AllBlank(a) && (TrimLeft(s) != [] ==> !Blank(TrimLeft(s)[0]))
  {
    a := [];
    if s != [] && IsSpace(s[0]) {
      var rest := TrimLeftMeaning(s[1..]);
      a := [s[0]] + rest;
      assert s == [s[0]] + (rest + TrimLeft(s));
    } else {
      assert [] + s == s;
    }
  }

  lemma {:induction false} TrimRightMeaning(s: string) returns (b: string)
    ensures s == TrimRight(s) + b && AllBlank(b) && (TrimRight(s) != [] ==> !Blank(TrimRight(s)[|TrimRight(s)| - 1]))
  {
    b := [];
    if s != [] && IsSpace(s[|s| - 1]) {
      var rest := TrimRightMeaning(s[..|s| - 1]);
      b := rest + [s[|s| - 1]];
      assert s == (TrimRight(s) + rest) + [s[|s| - 1]];
    } else {
      assert s + [] == s;
    }
  }

  /** Trimming takes white space off both ends, and leaves none there. */
  lemma {:induction false} TrimMeaning(s: string) returns (a: string, b: string)
    ensures s == a + TrimSpace(s) + b && AllBlank(a) && AllBlank(b) && Trimmed(TrimSpace(s))
  {
    a := TrimLeftMeaning(s);
    b := TrimRightMeaning(TrimLeft(s));
    var t := TrimSpace(s);
    assert t != [] ==> t[0] == (t + b)[0];
  }

  lemma {:induction false} TrimLeftOff(a: string, t: string)
    requires AllBlank(a) && (t != [] ==> !Blank(t[0]))
    ensures TrimLeft(a + t) == t
  {
    if a == [] {
      assert a + t == t;
    } else {
      assert (a + t)[1..] == a[1..] + t;
      TrimLeftOff(a[1..], t);
    }
  }

  lemma {:induction false} TrimRightOff(t: string, b: string)
    requires AllBlank(b) && (t != [] ==> !Blank(t[|t| - 1]))
    ensures TrimRight(t + b) == t
  {
    if b == [] {
      assert t + b == t;
    } else {
      assert (t + b)[..|t + b| - 1] == t + b[..|b| - 1];
      TrimRightOff(t, b[..|b| - 1]);
    }
  }

  /** White space around a bare text is what trimming takes off. */
  lemma {:induction false} TrimTakesOff(a: string, t: string, b: string)
    requires AllBlank(a) && AllBlank(b) && Trimmed(t)
    ensures TrimSpace(a + t + b) == t
  {
    if t == [] {
      assert a + t + b == (a + b) + [];
      TrimLeftOff(a + b, []);
    } else {
      assert a + t + b == a + (t + b);
      TrimLeftOff(a, t + b);
      TrimRightOff(t, b);
    }
  }

  /** The same character, or the two cases of one ASCII letter. */
  predicate SameLetter(c: char, d: char) {
    c == d || ('A' <= c <= 'Z' && d as int == c as int + 32) || ('A' <= d <= 'Z' && c as int == d as int + 32)
  }

  /** The same text but for the case of its letters. */
  predicate SameButCase(s: string, t: string) {
    |s| == |t| && forall i :: 0 <= i < |s| ==> SameLetter(s[i], t[i])
  }

  lemma {:induction false} LowerAt(s: string, i: nat)
    requires i < |s|
    ensures Lower(s)[i] == LowerChar(s[i])
  {
    if i < |s| - 1 {
      LowerAt(s[..|s| - 1], i);
    }
  }

  lemma {:induction false} LowerExactly(s: string, t: string)
    ensures Lower(s) == Lower(t) <==> SameButCase(s, t)
  {
    forall i | 0 <= i < |s| ensures Lower(s)[i] == LowerChar(s[i]) {
      LowerAt(s, i);
    }
    forall i | 0 <= i < |t| ensures Lower(t)[i] == LowerChar(t[i]) {
      LowerAt(t, i);
    }
    if Lower(s) == Lower(t) {
      forall i | 0 <= i < |s| ensures SameLetter(s[i], t[i]) {
        assert Lower(s)[i] == Lower(t)[i];
      }
    }
  }

  /** Normalized texts are equal exactly when the trimmed texts are the same but for case. */
  lemma {:induction false} NormalizeExactly(s: string, t: string)
    ensures Normalize(s) == Normalize(t) <==> SameButCase(TrimSpace(s), TrimSpace(t))
  {
    LowerExactly(TrimSpace(s), TrimSpace(t));
  }

  lemma {:induction false} LowerKeepsBlanks(s: string)
    ensures AllBlank(Lower(s)) <==> AllBlank(s)
  {
    forall i | 0 <= i < |s| ensures Blank(Lower(s)[i]) <==> Blank(s[i]) {
      LowerAt(s, i);
    }
  }

  /** Nothing is left of a text exactly when it is all white space. */
  lemma {:induction false} NormalizeEmptyExactly(s: string)
    ensures Normalize(s) == [] <==> AllBlank(s)
    ensures TrimSpace(s) == [] <==> AllBlank(s)
  {
    var a, b := TrimMeaning(s);
    if AllBlank(s) {
      TrimTakesOff(s, [], []);
      assert s + [] + [] == s;
    }
  }

  // ---- Decimal numbers ----

  function DigitChar(d: nat): char
    requires d < 10
  {
    ('0' as int + d) as char
  }

  function Digits(n: nat): (r: string)
    ensures r != []
  {
    if n < 10 then [DigitChar(n)] else Digits(n / 10) + [DigitChar(n % 10)]
  }

  /** `strconv.Itoa`, `%d`. */
  function Itoa(n: int): string {
    if n < 0 then "-" + Digits(-n) else Digits(n)
  }

  lemma {:induction false} DigitsOnly(n: nat)
    ensures forall c :: c in Digits(n) ==> '0' <= c <= '9'
  {
    if n >= 10 {
      DigitsOnly(n / 10);
    }
  }

  /** The number that a text of decimal digits stands for. */
  function ReadDigits(s: string): int {
    if s == [] then 0 else 10 * ReadDigits(s[..|s| - 1]) + (s[|s| - 1] as int - '0' as int)
  }

  /** Digits stand for their number, without leading zeros. */
  lemma {:induction false} DigitsRead(n: nat)
    ensures ReadDigits(Digits(n)) == n
    ensures n > 0 ==> Digits(n)[0] != '0'
  {
    if n >= 10 {
      DigitsRead(n / 10);
      assert Digits(n)[..|Digits(n)| - 1] == Digits(n / 10);
    } else {
      assert Digits(n)[..0] == [];
    }
  }

  lemma {:induction false} DigitsInjective(m: nat, n: nat)
    requires Digits(m) == Digits(n)
    ensures m == n
  {
    var d := Digits(m);
    if m < 10 || n < 10 {
      assert |d| == 1;
    } else {
      assert d[..|d| - 1] == Digits(m / 10) && d[..|d| - 1] == Digits(n / 10);
      assert d[|d| - 1] == DigitChar(m % 10) && d[|d| - 1] == DigitChar(n % 10);
      DigitsInjective(m / 10, n / 10);
    }
  }

  lemma {:induction false} ItoaSign(n: int)
    ensures Itoa(n) != [] && (Itoa(n)[0] == '-' <==> n < 0)
  {
    var d := Digits(if n < 0 then -n else n);
    DigitsOnly(if n < 0 then -n else n);
    assert d[0] in d;
  }

  lemma {:induction false} ItoaInjective(m: int, n: int)
    requires Itoa(m) == Itoa(n)
    ensures m == n
  {
    ItoaSign(m);
    ItoaSign(n);
    if m < 0 {
      assert Itoa(m)[1..] == Digits(-m) && Itoa(n)[1..] == Digits(-n);
      DigitsInjective(-m, -n);
    } else {
      DigitsInjective(m, n);
    }
  }

  lemma {:induction false} ItoaHasNo(n: int, c: char)
    requires c != '-' && !('0' <= c <= '9')
    ensures c !in Itoa(n)
  {
    DigitsOnly(if n < 0 then -n else n);
  }

  /** Splitting at the last separator: the part after it fixes both halves. */
  lemma {:induction false} LastSeparator(a: string, x: string, b: string, y: string, c: char)
    requires a + [c] + x == b + [c] + y && c !in x && c !in y
    ensures a == b && x == y
  {
    var s := a + [c] + x;
    assert s[|a|] == c && s[|b|] == c;
    assert a == s[..|a|] && b == s[..|b|];
    assert x == s[|a| + 1..] && y == s[|b| + 1..];
  }
}
