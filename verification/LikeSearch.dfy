/** Bug-report search: LIKE patterns built from what the user typed. */
module LikeSearch {
  import opened Wrappers

  const ESC: char := '\\'
  const MANY: char := '%'
  const ONE: char := '_'

  predicate Special(c: char) {
    c == ESC || c == MANY || c == ONE
  }

  /** A backslash before every backslash, percent sign and underscore. */
  function Escape(s: string): string {
    if s == "" then "" else (if Special(s[0]) then [ESC, s[0]] else [s[0]]) + Escape(s[1..])
  }

  function Pattern(search: string): string {
    [MANY] + Escape(search) + [MANY]
  }

  /** The whole text matches the pattern, section 9.7.1 of the PostgreSQL documentation; ILIKE compares folded characters. */
  predicate Like(p: string, t: string, fold: char -> char)
    decreases |p| + |t|
  {
    if p == "" then t == ""
    else if p[0] == MANY then Like(p[1..], t, fold) || (t != "" && Like(p, t[1..], fold))
    else if p[0] == ONE then t != "" && Like(p[1..], t[1..], fold)
    else if p[0] == ESC then |p| > 1 && t != "" && fold(p[1]) == fold(t[0]) && Like(p[2..], t[1..], fold)
    else t != "" && fold(p[0]) == fold(t[0]) && Like(p[1..], t[1..], fold)
  }

  /** A pattern that ends in the escape character is an error in PostgreSQL. */
  predicate Complete(p: string) {
    p == "" || if p[0] == ESC then |p| > 1 && Complete(p[2..]) else Complete(p[1..])
  }

  predicate Same(s: string, t: string, fold: char -> char) {
    |s| == |t| && forall k | 0 <= k < |s| :: fold(s[k]) == fold(t[k])
  }

  predicate FoundAt(s: string, t: string, fold: char -> char, i: nat) {
    i + |s| <= |t| && Same(s, t[i..i + |s|], fold)
  }

  /** The search text stands somewhere in `t` as it was typed, letter case apart. */
  ghost predicate Contains(s: string, t: string, fold: char -> char) {
    exists i: nat :: FoundAt(s, t, fold, i)
  }

  /** The special characters of PostgreSQL's LIKE: a percent sign for any text, an underscore for any one character, a backslash to quote the next. */
  lemma Wildcards(t: string, c: char, fold: char -> char)
    ensures Like("%", t, fold) && (Like("_", t, fold) <==> |t| == 1)
    ensures Like("\\" + [c], t, fold) <==> |t| == 1 && fold(t[0]) == fold(c)
    ensures c !in "%_\\" ==> (Like([c], t, fold) <==> |t| == 1 && fold(t[0]) == fold(c))
  {
    AnyEnding(t, fold);
    assert "_"[1..] == "" && ("\\" + [c])[2..] == "" && [c][1..] == "" && "%" == [MANY];
    assert |t| == 1 ==> t[1..] == "";
  }

  lemma {:induction false} AnyEnding(t: string, fold: char -> char)
    ensures Like([MANY], t, fold)
  {
    if t != "" {
      AnyEnding(t[1..], fold);
    }
  }

  /** After escaping, every typed character stands for itself. */
  lemma {:induction false} EscapedPrefix(s: string, t: string, fold: char -> char)
    ensures Like(Escape(s) + [MANY], t, fold) <==> FoundAt(s, t, fold, 0)
  {
    if s == "" {
      assert Escape(s) + [MANY] == [MANY];
      AnyEnding(t, fold);
    } else {
      EscapedHead(s, t, fold);
      if t != "" {
        EscapedPrefix(s[1..], t[1..], fold);
        FoundHead(s, t, fold);
      }
    }
  }

  lemma LikeLiteral(c: char, p: string, t: string, fold: char -> char)
    ensures Like((if Special(c) then [ESC, c] else [c]) + p, t, fold) <==>
      t != "" && fold(c) == fold(t[0]) && Like(p, t[1..], fold)
  {
    if Special(c) {
      var q := [ESC, c] + p;
      assert q[0] == ESC && q[1] == c && q[2..] == p;
    } else {
      var q := [c] + p;
      assert q[0] == c && q[1..] == p;
    }
  }

  lemma EscapedHead(s: string, t: string, fold: char -> char)
    requires s != ""
    ensures Like(Escape(s) + [MANY], t, fold) <==>
      t != "" && fold(s[0]) == fold(t[0]) && Like(Escape(s[1..]) + [MANY], t[1..], fold)
  {
    LikeLiteral(s[0], Escape(s[1..]) + [MANY], t, fold);
    assert Escape(s) + [MANY] == (if Special(s[0]) then [ESC, s[0]] else [s[0]]) + (Escape(s[1..]) + [MANY]);
  }

  lemma FoundHead(s: string, t: string, fold: char -> char)
    requires s != "" && t != ""
    ensures FoundAt(s, t, fold, 0) <==> fold(s[0]) == fold(t[0]) && FoundAt(s[1..], t[1..], fold, 0)
  {
    var u := s[1..];
    if FoundAt(u, t[1..], fold, 0) && fold(s[0]) == fold(t[0]) {
      forall k | 0 <= k < |s| ensures fold(s[k]) == fold(t[0..|s|][k]) {
        assert k > 0 ==> s[k] == u[k - 1] && t[k] == t[1..][0..|u|][k - 1];
      }
    }
    if FoundAt(s, t, fold, 0) {
      forall k | 0 <= k < |u| ensures fold(u[k]) == fold(t[1..][0..|u|][k]) {
        assert s[k + 1] == u[k] && t[0..|s|][k + 1] == t[1..][k];
      }
      assert t[0..|s|][0] == t[0];
    }
  }

  lemma {:induction false} AnyStart(p: string, t: string, fold: char -> char)
    ensures Like([MANY] + p, t, fold) <==> exists i: nat :: i <= |t| && Like(p, t[i..], fold)
    decreases |t|
  {
    assert ([MANY] + p)[1..] == p && t[0..] == t;
    if t != "" {
      AnyStart(p, t[1..], fold);
      forall i: nat | i <= |t| && Like(p, t[i..], fold)
        ensures Like([MANY] + p, t, fold)
      {
        if i > 0 {
          assert t[i..] == t[1..][i - 1..];
        }
      }
      if i: nat :| i <= |t[1..]| && Like(p, t[1..][i..], fold) {
        assert t[1..][i..] == t[i + 1..];
      }
    }
  }

  /** The pattern is complete and finds exactly the texts that contain what was typed. */
  lemma SearchIsSubstring(s: string, t: string, fold: char -> char)
    ensures Complete(Pattern(s))
    ensures Like(Pattern(s), t, fold) <==> Contains(s, t, fold)
  {
    EscapedIsComplete(s);
    var p := Escape(s) + [MANY];
    assert Pattern(s) == [MANY] + p;
    AnyStart(p, t, fold);
    forall i: nat | i <= |t|
      ensures Like(p, t[i..], fold) <==> FoundAt(s, t, fold, i)
    {
      EscapedPrefix(s, t[i..], fold);
      assert i + |s| <= |t| ==> t[i..i + |s|] == t[i..][0..|s|];
    }
  }

  lemma {:induction false} EscapedIsComplete(s: string)
    ensures Complete(Escape(s) + [MANY])
  {
    if s != "" {
      assert (Escape(s) + [MANY])[if Special(s[0]) then 2 else 1..] == Escape(s[1..]) + [MANY];
      EscapedIsComplete(s[1..]);
    }
  }

  // ----- what escaping is for -----

  predicate Plain(s: string) {
    s == "" || (!Special(s[0]) && Plain(s[1..]))
  }

  lemma {:induction false} PlainEscapesToItself(s: string)
    requires Plain(s)
    ensures Escape(s) == s
  {
    if s != "" {
      PlainEscapesToItself(s[1..]);
      assert s == [s[0]] + s[1..];
    }
  }

  /** A text the pattern matches: nothing for a percent sign, `other` for an underscore, itself for the rest. */
  function Sample(p: string, other: char): string {
    if p == "" then ""
    else if p[0] == MANY then Sample(p[1..], other)
    else if p[0] == ONE then [other] + Sample(p[1..], other)
    else if p[0] == ESC && |p| > 1 then [p[1]] + Sample(p[2..], other)
    else [p[0]] + Sample(p[1..], other)
  }

  lemma {:induction false} SampleMatches(p: string, other: char, fold: char -> char)
    requires Complete(p)
    ensures Like(p, Sample(p, other), fold)
  {
    if p != "" {
      if p[0] == ESC {
        SampleMatches(p[2..], other, fold);
      } else {
        SampleMatches(p[1..], other, fold);
      }
    }
  }

  /** A final percent sign completes any pattern. */
  lemma {:induction false} AlwaysComplete(s: string)
    ensures Complete(s + [MANY])
  {
    var p := s + [MANY];
    if s != "" {
      if s[0] == ESC && |s| > 1 {
        assert p[2..] == s[2..] + [MANY];
        AlwaysComplete(s[2..]);
      } else if s[0] == ESC {
        assert p[2..] == "";
      } else {
        assert p[1..] == s[1..] + [MANY];
        AlwaysComplete(s[1..]);
      }
    }
  }

  /** The sample of an unescaped search is no longer than the search, and the same only without special characters. */
  lemma {:induction false} SampleDiffers(s: string, other: char, fold: char -> char)
    requires fold(other) != fold(ONE) && fold(ESC) != fold(MANY)
    ensures |Sample(s + [MANY], other)| <= |s|
    ensures Same(s, Sample(s + [MANY], other), fold) ==> Plain(s)
  {
    var p := s + [MANY];
    if s == "" {
      assert p[1..] == "";
    } else if s[0] == ESC && |s| > 1 {
      assert p[2..] == s[2..] + [MANY];
      SampleDiffers(s[2..], other, fold);
    } else if s[0] == ESC {
      assert p[2..] == "" && Sample(p, other) == [MANY];
    } else {
      assert p[1..] == s[1..] + [MANY];
      SampleDiffers(s[1..], other, fold);
      SampleHead(s, other, fold);
    }
  }

  lemma SampleHead(s: string, other: char, fold: char -> char)
    requires s != "" && s[0] != ESC && |Sample(s[1..] + [MANY], other)| <= |s| - 1
    ensures var t, u := Sample(s + [MANY], other), Sample(s[1..] + [MANY], other);
      Same(s, t, fold) ==>
        Same(s[1..], u, fold) && s[0] != MANY && (s[0] == ONE ==> fold(other) == fold(ONE))
  {
    var p, t, u := s + [MANY], Sample(s + [MANY], other), Sample(s[1..] + [MANY], other);
    assert p[1..] == s[1..] + [MANY];
    if Same(s, t, fold) && s[0] != MANY {
      forall k | 0 <= k < |s[1..]| ensures fold(s[1..][k]) == fold(u[k]) {
        assert s[1..][k] == s[k + 1] && u[k] == t[k + 1];
      }
    }
  }

  /** The pattern without escaping finds exactly the texts that contain the search. */
  ghost predicate UnescapedWorks(s: string, fold: char -> char) {
    forall t :: Like([MANY] + (s + [MANY]), t, fold) <==> Contains(s, t, fold)
  }

  /** Escaping is needed exactly for the searches with a special character in them. */
  lemma EscapingNeededExactly(s: string, other: char, fold: char -> char)
    requires fold(other) != fold(ONE) && fold(ESC) != fold(MANY)
    ensures UnescapedWorks(s, fold) <==> Plain(s)
  {
    var p := s + [MANY];
    if Plain(s) {
      PlainEscapesToItself(s);
      forall t ensures Like([MANY] + p, t, fold) <==> Contains(s, t, fold) {
        SearchIsSubstring(s, t, fold);
        assert [MANY] + p == Pattern(s);
      }
    } else {
      var t := Sample(p, other);
      AlwaysComplete(s);
      SampleMatches(p, other, fold);
      AnyStart(p, t, fold);
      assert t[0..] == t;
      SampleDiffers(s, other, fold);
      assert Like([MANY] + p, t, fold) && !Contains(s, t, fold);
    }
  }

  datatype Report = Report(id: string, title: string, description: string, isActive: bool)

  datatype Condition = Active | TitleOrDescriptionLike(pattern: string)

  predicate Meets(r: Report, c: Condition, fold: char -> char) {
    match c
    case Active => r.isActive
    case TitleOrDescriptionLike(p) => Like(p, r.title, fold) || Like(p, r.description, fold)
  }

  predicate MeetsAll(r: Report, cs: seq<Condition>, fold: char -> char) {
    forall c | c in cs :: Meets(r, c, fold)
  }

  class BugReportsRepository {
    var reports: set<Report>

    constructor ()
      ensures reports == {}
    {
      reports := {};
    }

    /** The rows behind both the total and the pages; an empty search is falsy and selects all. */
    method FindAll(includeInactive: bool, search: Option<string>, fold: char -> char) returns (rows: set<Report>)
      ensures forall r :: r in rows <==>
        r in reports && (includeInactive || r.isActive)
        && (search.Some? ==> Contains(search.value, r.title, fold) || Contains(search.value, r.description, fold))
    {
      var conditions: seq<Condition> := [];
      if !includeInactive {
        conditions := conditions + [Active];
      }
      if search.Some? && search.value != "" {
        conditions := conditions + [TitleOrDescriptionLike(Pattern(search.value))];
      }
      rows := set r | r in reports && MeetsAll(r, conditions, fold);
      forall r
        ensures MeetsAll(r, conditions, fold) <==>
          (includeInactive || r.isActive)
          && (search.Some? ==> Contains(search.value, r.title, fold) || Contains(search.value, r.description, fold))
      {
        assert !includeInactive ==> Active in conditions;
        if search.Some? {
          SearchIsSubstring(search.value, r.title, fold);
          SearchIsSubstring(search.value, r.description, fold);
          assert search.value == "" ==> FoundAt(search.value, r.title, fold, 0);
          assert search.value != "" ==> TitleOrDescriptionLike(Pattern(search.value)) in conditions;
        }
      }
    }
  }
}
