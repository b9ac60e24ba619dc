/** Temporary passwords: guaranteed character classes, then a Fisher–Yates shuffle in place. */
module Password {
  const LOWER := "abcdefghijklmnopqrstuvwxyz"
  const UPPER := "ABCDEFGHIJKLMNOPQRSTUVWXYZ"
  const DIGIT := "0123456789"
  const SPECIAL := "!@#$%^&*"
  const ALL := LOWER + UPPER + DIGIT + SPECIAL
  const LENGTH: nat := 16

  function Swap<T>(s: seq<T>, i: nat, j: nat): seq<T>
    requires i < |s| && j < |s|
  {
    s[i := s[j]][j := s[i]]
  }

  /** One choice per position; position 0 has no choice. */
  predicate Choices(js: seq<nat>, n: nat) {
    |js| == n && forall i | 0 <= i < n :: js[i] <= i
  }

  /** The loop from position `i` down to 1. */
  function ShuffleFrom<T>(s: seq<T>, js: seq<nat>, i: nat): (r: seq<T>)
    requires i < |s| && Choices(js, |s|)
    ensures |r| == |s|
    decreases i
  {
    if i == 0 then s else ShuffleFrom(Swap(s, i, js[i]), js, i - 1)
  }

  function Shuffled<T>(s: seq<T>, js: seq<nat>): seq<T>
    requires Choices(js, |s|)
  {
    if s == [] then s else ShuffleFrom(s, js, |s| - 1)
  }

  predicate Distinct<T(==)>(s: seq<T>) {
    forall i, j | 0 <= i < j < |s| :: s[i] != s[j]
  }

  lemma SwapPermutes<T>(s: seq<T>, i: nat, j: nat)
    requires j <= i < |s|
    ensures multiset(Swap(s, i, j)) == multiset(s)
  {
  }

  lemma {:induction false} ShufflePermutes<T>(s: seq<T>, js: seq<nat>, i: nat)
    requires i < |s| && Choices(js, |s|)
    ensures multiset(ShuffleFrom(s, js, i)) == multiset(s)
    ensures forall k | i < k < |s| :: ShuffleFrom(s, js, i)[k] == s[k]
    ensures i > 0 ==> ShuffleFrom(s, js, i)[i] == s[js[i]]
    decreases i
  {
    if i > 0 {
      SwapPermutes(s, i, js[i]);
      ShufflePermutes(Swap(s, i, js[i]), js, i - 1);
    }
  }

  /** Different choices give different orders of distinct elements. */
  lemma {:induction false} ShuffleInjective<T>(s: seq<T>, js: seq<nat>, ks: seq<nat>, i: nat)
    requires i < |s| && Choices(js, |s|) && Choices(ks, |s|) && Distinct(s)
    requires ShuffleFrom(s, js, i) == ShuffleFrom(s, ks, i)
    ensures js[..i + 1] == ks[..i + 1]
    decreases i
  {
    if i > 0 {
      ShufflePermutes(s, js, i);
      ShufflePermutes(s, ks, i);
      assert js[i] == ks[i];
      ShuffleInjective(Swap(s, i, js[i]), js, ks, i - 1);
      assert js[..i + 1] == js[..i] + [js[i]] && ks[..i + 1] == ks[..i] + [ks[i]];
    }
  }

  /** Above position `i` the orders agree already. */
  predicate AgreeAbove<T(==)>(s: seq<T>, p: seq<T>, i: nat) {
    |s| == |p| && forall k | i < k < |s| :: s[k] == p[k]
  }

  /** What belongs at `i` still stands at or below it. */
  lemma PrefixHas<T>(s: seq<T>, p: seq<T>, i: nat) returns (j: nat)
    requires i < |s| && multiset(s) == multiset(p) && AgreeAbove(s, p, i)
    ensures j <= i && s[j] == p[i]
  {
    var rest := s[i + 1..];
    assert rest == p[i + 1..];
    assert s == s[..i + 1] + rest && p == p[..i + 1] + rest;
    assert multiset(s[..i + 1]) == multiset(s) - multiset(rest) == multiset(p[..i + 1]);
    assert p[..i + 1][i] in multiset(p[..i + 1]);
    assert p[i] in s[..i + 1];
    j :| 0 <= j < |s[..i + 1]| && s[..i + 1][j] == p[i];
  }

  /** Every order is reached by some choices. */
  lemma {:induction false} ShuffleOnto<T>(s: seq<T>, p: seq<T>, i: nat) returns (js: seq<nat>)
    requires i < |s| && multiset(s) == multiset(p) && AgreeAbove(s, p, i)
    ensures Choices(js, |s|) && ShuffleFrom(s, js, i) == p
    decreases i
  {
    var j := PrefixHas(s, p, i);
    if i == 0 {
      js := seq(|s|, _ => 0);
      assert s[0] == p[0] && s == p;
    } else {
      SwapPermutes(s, i, j);
      var t := Swap(s, i, j);
      var ks := ShuffleOnto(t, p, i - 1);
      js := ks[i := j];
      SameBelow(t, ks, js, i - 1);
    }
  }

  lemma {:induction false} SameBelow<T>(s: seq<T>, js: seq<nat>, ks: seq<nat>, i: nat)
    requires i < |s| && Choices(js, |s|) && Choices(ks, |s|)
    requires forall k | 0 <= k <= i :: js[k] == ks[k]
    ensures ShuffleFrom(s, js, i) == ShuffleFrom(s, ks, i)
    decreases i
  {
    if i > 0 {
      SameBelow(Swap(s, i, js[i]), js, ks, i - 1);
    }
  }

  /** Every draw gives a reordering, and different draws of distinct elements give different ones. */
  lemma ShuffleOneToOne<T>(s: seq<T>, js: seq<nat>, ks: seq<nat>)
    requires Choices(js, |s|) && Choices(ks, |s|) && Distinct(s)
    ensures multiset(Shuffled(s, js)) == multiset(s)
    ensures Shuffled(s, js) == Shuffled(s, ks) <==> js == ks
  {
    if s != [] {
      ShufflePermutes(s, js, |s| - 1);
      if Shuffled(s, js) == Shuffled(s, ks) {
        ShuffleInjective(s, js, ks, |s| - 1);
        assert js[..|s|] == js && ks[..|s|] == ks;
      }
    }
  }

  /** Every reordering of the list, distinct or not, is what some draw gives. */
  lemma ShuffleReachesAll<T>(s: seq<T>, p: seq<T>)
    requires multiset(p) == multiset(s)
    ensures exists js :: Choices(js, |s|) && Shuffled(s, js) == p
  {
    assert |p| == |multiset(p)| == |multiset(s)| == |s|;
    if s != [] {
      var js := ShuffleOnto(s, p, |s| - 1);
    } else {
      assert Choices([], |s|) && Shuffled(s, []) == p;
    }
  }

  /** Any value below the bound. */
  method RandomInt(bound: nat) returns (r: nat)
    requires bound > 0
    ensures r < bound
  {
    r :| r < bound;
  }

  method Pick(from: string) returns (c: char)
    requires from != ""
    ensures c in from
  {
    var k := RandomInt(|from|);
    c := from[k];
  }

  /** The shuffle on the array itself; `js` are the numbers drawn. */
  method ShuffleInPlace<T(!new)>(a: array<T>) returns (ghost js: seq<nat>)
    modifies a
    ensures Choices(js, a.Length) && a[..] == Shuffled(old(a[..]), js)
    ensures multiset(a[..]) == multiset(old(a[..]))
  {
    js := seq(a.Length, i => i);
    if a.Length > 0 {
      js := DrawAll(a, js);
      LastDraw(old(a[..]), js, a[..]);
    }
  }

  /** The loop; where nothing is drawn, at position 0, `js0` stands. */
  method DrawAll<T(!new)>(a: array<T>, ghost js0: seq<nat>) returns (ghost js: seq<nat>)
    requires a.Length > 0 && Choices(js0, a.Length)
    modifies a
    ensures Choices(js, a.Length) && RunsTo(old(a[..]), js, a[..], 0)
  {
    js := js0;
    var i := a.Length - 1;
    while i > 0
      invariant 0 <= i < a.Length && Choices(js, a.Length)
      invariant RunsTo(old(a[..]), js, a[..], i)
    {
      var j := RandomInt(i + 1);
      OneMoreDraw(old(a[..]), js, a[..], i, j);
      js := js[i := j];
      Exchange(a, i, j);
      i := i - 1;
    }
  }

  method Exchange<T>(a: array<T>, i: nat, j: nat)
    requires i < a.Length && j < a.Length
    modifies a
    ensures a[..] == Swap(old(a[..]), i, j)
  {
    a[i], a[j] := a[j], a[i];
  }

  lemma LastDraw<T(!new)>(s: seq<T>, js: seq<nat>, t: seq<T>)
    requires s != [] && Choices(js, |s|) && RunsTo(s, js, t, 0)
    ensures t == Shuffled(s, js) && multiset(t) == multiset(s)
  {
    assert js[1..] == js[1..];
    ShufflePermutes(s, js, |s| - 1);
  }

  /** Any draws that agree with `js` above `i` have brought `s` to `t` by position `i`. */
  ghost predicate RunsTo<T(!new)>(s: seq<T>, js: seq<nat>, t: seq<T>, i: nat) {
    |s| == |t| && i < |s| &&
    forall ks | Choices(ks, |s|) && |js| == |s| && ks[i + 1..] == js[i + 1..] :: ShuffleFrom(s, ks, |s| - 1) == ShuffleFrom(t, ks, i)
  }

  lemma OneMoreDraw<T(!new)>(s: seq<T>, js: seq<nat>, t: seq<T>, i: nat, j: nat)
    requires 0 < i < |s| && j <= i && Choices(js, |s|) && RunsTo(s, js, t, i)
    ensures RunsTo(s, js[i := j], Swap(t, i, j), i - 1)
  {
    var drawn := js[i := j];
    forall ks | Choices(ks, |s|) && ks[i..] == drawn[i..]
      ensures ShuffleFrom(s, ks, |s| - 1) == ShuffleFrom(Swap(t, i, j), ks, i - 1)
    {
      assert ks[i] == ks[i..][0] && ks[i + 1..] == ks[i..][1..] && drawn[i + 1..] == drawn[i..][1..] && js[i + 1..] == drawn[i + 1..];
    }
  }

  predicate HasOneOf(p: string, from: string) {
    exists k :: 0 <= k < |p| && p[k] in from
  }

  lemma KeepsOneOf(p: string, q: string, from: string)
    requires HasOneOf(p, from) && multiset(p) == multiset(q)
    ensures HasOneOf(q, from)
  {
    var k :| 0 <= k < |p| && p[k] in from;
    assert p[k] in multiset(q);
  }

  predicate HasBetween(p: string, low: char, high: char) {
    exists k :: 0 <= k < |p| && low <= p[k] <= high
  }

  lemma OneBetween(p: string, from: string, low: char, high: char)
    requires HasOneOf(p, from) && forall c | c in from :: low <= c <= high
    ensures HasBetween(p, low, high)
  {
    var k :| 0 <= k < |p| && p[k] in from;
    assert low <= p[k] <= high;
  }

  lemma LowerLetters()
    ensures forall c :: c in LOWER <==> 'a' <= c <= 'z'
  {
    assert |LOWER| == 26 && forall i | 0 <= i < 26 :: LOWER[i] == 'a' + i as char;
    forall c | 'a' <= c <= 'z' ensures c in LOWER {
      assert LOWER[c as int - 'a' as int] == c;
    }
  }

  lemma UpperLetters()
    ensures forall c :: c in UPPER <==> 'A' <= c <= 'Z'
  {
    assert |UPPER| == 26 && forall i | 0 <= i < 26 :: UPPER[i] == 'A' + i as char;
    forall c | 'A' <= c <= 'Z' ensures c in UPPER {
      assert UPPER[c as int - 'A' as int] == c;
    }
  }

  lemma Digits()
    ensures forall c :: c in DIGIT <==> '0' <= c <= '9'
  {
    assert |DIGIT| == 10 && forall i | 0 <= i < 10 :: DIGIT[i] == '0' + i as char;
    forall c | '0' <= c <= '9' ensures c in DIGIT {
      assert DIGIT[c as int - '0' as int] == c;
    }
  }

  lemma Specials()
    ensures forall c :: c in SPECIAL <==> c in "!@#$%^&*"
  {
  }

  /** Sixteen characters from the four alphabets, at least one of each, whatever is drawn. */
  method GenerateStrongPassword() returns (password: string)
    ensures |password| == 16
    ensures HasBetween(password, 'a', 'z') && HasBetween(password, 'A', 'Z') && HasBetween(password, '0', '9')
    ensures HasOneOf(password, "!@#$%^&*")
    ensures forall k | 0 <= k < |password| ::
      'a' <= password[k] <= 'z' || 'A' <= password[k] <= 'Z' || '0' <= password[k] <= '9' || password[k] in "!@#$%^&*"
  {
    var chars := DrawChars();
    password := Shuffle(chars);
    KeepsOneOf(chars, password, LOWER);
    KeepsOneOf(chars, password, UPPER);
    KeepsOneOf(chars, password, DIGIT);
    KeepsOneOf(chars, password, SPECIAL);
    LowerLetters();
    UpperLetters();
    Digits();
    Specials();
    OneBetween(password, LOWER, 'a', 'z');
    OneBetween(password, UPPER, 'A', 'Z');
    OneBetween(password, DIGIT, '0', '9');
    KeepsAlphabet(chars, password);
  }

  lemma KeepsAlphabet(p: string, q: string)
    requires multiset(p) == multiset(q) && forall k | 0 <= k < |p| :: p[k] in ALL
    ensures forall k | 0 <= k < |q| :: q[k] in LOWER || q[k] in UPPER || q[k] in DIGIT || q[k] in SPECIAL
  {
    forall k | 0 <= k < |q| ensures q[k] in ALL {
      assert q[k] in multiset(q);
      assert q[k] in p;
    }
  }

  /** One of each kind in front, and then any. */
  method DrawChars() returns (chars: string)
    ensures |chars| == LENGTH && forall k | 0 <= k < |chars| :: chars[k] in ALL
    ensures HasOneOf(chars, LOWER) && HasOneOf(chars, UPPER) && HasOneOf(chars, DIGIT) && HasOneOf(chars, SPECIAL)
  {
    var lower := Pick(LOWER);
    var upper := Pick(UPPER);
    var digit := Pick(DIGIT);
    var special := Pick(SPECIAL);
    chars := [lower, upper, digit, special];
    while |chars| < LENGTH
      invariant 4 <= |chars| <= LENGTH
      invariant chars[0] in LOWER && chars[1] in UPPER && chars[2] in DIGIT && chars[3] in SPECIAL
      invariant forall k | 0 <= k < |chars| :: chars[k] in ALL
    {
      var c := Pick(ALL);
      chars := chars + [c];
    }
  }

  /** The shuffle loop on the drawn characters. */
  method Shuffle(chars: string) returns (password: string)
    ensures |password| == |chars| && multiset(password) == multiset(chars)
  {
    var a := new char[|chars|](i requires 0 <= i < |chars| => chars[i]);
    assert a[..] == chars;
    ghost var js := ShuffleInPlace(a);
    password := a[..];
  }
}
