/** Matching rules of the QIDO query builder: universal matching, wildcard
    detection, the translation of DICOM wildcards into SQL LIKE patterns with '!'
    as escape character (section C.2.2.2.4 of DICOM PS3.4), range splitting
    (section C.2.2.2.5), and the predicates added for one attribute. */
module QueryBuilder {
  import opened JavaText

  /** A restriction added to the query: equality, a LIKE match, or a disjunction. */
  datatype Criterion =
    | Eq(property: string, value: string)
    | Like(property: string, pattern: string, ignoreCase: bool)
    | Or(alternatives: seq<Criterion>)

  // ---------------------------------------------------------------- universal

  /** isUniversalMatching(String): a null value or "*". */
  predicate IsUniversalValue(value: Option<string>)
  {
    value.None? || value.value == "*"
  }

  /** isUniversalMatching(String[]): a null or empty array, or a first entry that
      is null or "*"; later entries are not looked at. */
  predicate IsUniversalMatching(values: Option<seq<Option<string>>>)
  {
    values.None? || |values.value| == 0 || IsUniversalValue(values.value[0])
  }

  /** isUniversalMatching(IDWithIssuer[]): every patient ID is universal; an
      empty array is. */
  method IsUniversalPatientIds(ids: seq<Option<string>>) returns (r: bool)
    ensures r <==> forall i :: 0 <= i < |ids| ==> IsUniversalValue(ids[i])
    ensures |ids| == 0 ==> r
  {
    var i := 0;
    while i < |ids|
      invariant 0 <= i <= |ids|
      invariant forall j :: 0 <= j < i ==> IsUniversalValue(ids[j])
    {
      if !IsUniversalValue(ids[i]) {
        return false;
      }
      i := i + 1;
    }
    return true;
  }

  /** containsWildcard: a '*' or a '?' occurs. */
  function ContainsWildcard(s: string): (r: bool)
    ensures r <==> '*' in s || '?' in s
  {
    IndexOfChar(s, '*') >= 0 || IndexOfChar(s, '?') >= 0
  }

  // ---------------------------------------------------------------- LIKE

  /** What toLikePattern emits for character `c` after character `p`: a run of
      '*' becomes one '%', '?' becomes '_', and the LIKE metacharacters '_', '%'
      and the escape '!' are escaped with '!'. */
  function Emit(c: char, p: char): string
  {
    if c == '*' then (if c != p then "%" else "")
    else if c == '?' then "_"
    else if c == '_' || c == '%' || c == '!' then ['!', c]
    else [c]
  }

  /** The pattern of `s` when the character before it was `p`. */
  function LikeFrom(s: string, p: char): string
  {
    if s == [] then [] else Emit(s[0], p) + LikeFrom(s[1..], s[0])
  }

  /** toLikePattern, the loop over the characters with the previous one in `p`. */
  method ToLikePattern(s: string) returns (like: string)
    ensures like == LikeFrom(s, 0 as char)
    ensures Unlike(like) == CollapseFrom(s, 0 as char)
  {
    like := "";
    var p := 0 as char;
    var i := 0;
    while i < |s|
      invariant 0 <= i <= |s|
      invariant like + LikeFrom(s[i..], p) == LikeFrom(s, 0 as char)
    {
      var c := s[i];
      var piece := "";
      if c == '*' {
        if c != p {
          piece := "%";
        }
      } else if c == '?' {
        piece := "_";
      } else if c == '_' || c == '%' || c == '!' {
        piece := ['!', c];
      } else {
        piece := [c];
      }
      assert piece == Emit(c, p);
      LikeStep(s, i, p, like);
      like := like + piece;
      p := c;
      i := i + 1;
    }
    assert s[i..] == [] && like + [] == like;
    UnlikeOfLike(s, 0 as char);
  }

  lemma LikeStep(s: string, i: nat, p: char, like: string)
    requires i < |s|
    ensures like + LikeFrom(s[i..], p) == (like + Emit(s[i], p)) + LikeFrom(s[i + 1..], s[i])
  {
    assert s[i..][1..] == s[i + 1..];
  }

  /** Reading a LIKE pattern back: '%' stands for '*', '_' for '?', and '!'
      escapes the character after it. */
  function Unlike(q: string): string
  {
    if q == [] then []
    else if q[0] == '!' && |q| >= 2 then [q[1]] + Unlike(q[2..])
    else if q[0] == '%' then "*" + Unlike(q[1..])
    else if q[0] == '_' then "?" + Unlike(q[1..])
    else [q[0]] + Unlike(q[1..])
  }

  /** `s` with every run of '*' shortened to one (a leading run too, unless `p`
      already was a '*'). */
  function CollapseFrom(s: string, p: char): string
  {
    if s == [] then []
    else (if s[0] == '*' && p == '*' then [] else [s[0]]) + CollapseFrom(s[1..], s[0])
  }

  lemma UnlikeEmit(c: char, p: char, rest: string)
    ensures Unlike(Emit(c, p) + rest) == Unlike(Emit(c, p)) + Unlike(rest)
    ensures Unlike(Emit(c, p)) == if c == '*' && p == '*' then [] else [c]
  {
    var e := Emit(c, p);
    if c == '*' && p == '*' {
      assert e == [] && e + rest == rest;
    } else if c == '*' || c == '?' || !(c == '_' || c == '%' || c == '!') {
      assert |e| == 1 && (e + rest)[1..] == rest && e[1..] == [];
    } else {
      assert e == ['!', c] && (e + rest)[2..] == rest && e[2..] == [];
    }
  }

  /** Reading the pattern back gives the value with runs of '*' collapsed: the
      translation loses nothing else. */
  lemma {:induction false} UnlikeOfLike(s: string, p: char)
    ensures Unlike(LikeFrom(s, p)) == CollapseFrom(s, p)
  {
    if s != [] {
      UnlikeEmit(s[0], p, LikeFrom(s[1..], s[0]));
      UnlikeOfLike(s[1..], s[0]);
    }
  }

  predicate AllStars(s: string)
  {
    forall i :: 0 <= i < |s| ==> s[i] == '*'
  }

  lemma {:induction false} StarsCollapse(s: string)
    requires AllStars(s)
    ensures LikeFrom(s, '*') == ""
  {
    if s != [] {
      StarsCollapse(s[1..]);
    }
  }

  lemma {:induction false} CollapseOnlyStars(s: string, p: char)
    requires p == '*' && CollapseFrom(s, p) == ""
    ensures AllStars(s)
  {
    if s != [] {
      CollapseOnlyStars(s[1..], s[0]);
    }
  }

  /** The pattern is a lone '%' exactly for a non-empty run of stars. */
  lemma PureStarPattern(s: string)
    ensures LikeFrom(s, 0 as char) == "%" <==> s != [] && AllStars(s)
  {
    if s != [] && AllStars(s) {
      StarsCollapse(s[1..]);
    }
    if LikeFrom(s, 0 as char) == "%" {
      UnlikeOfLike(s, 0 as char);
      assert Unlike("%") == "*";
      assert s != [];
      assert s[0] == '*';
      assert CollapseFrom(s[1..], '*') == "";
      CollapseOnlyStars(s[1..], '*');
    }
  }

  // ---------------------------------------------------------------- ranges

  /** splitRange: no '-' gives the value as both ends; otherwise the text before
      the first '-' is the start and the text after it the end, an empty side
      being absent (null). */
  function SplitRange(s: string): (r: (Option<string>, Option<string>))
    ensures '-' !in s ==> r == (Some(s), Some(s))
    ensures '-' in s ==> (r.0.None? <==> s[0] == '-')
    ensures '-' in s ==> (r.1.None? <==> s[|s| - 1] == '-' && '-' !in s[..|s| - 1])
  {
    var delim := IndexOfChar(s, '-');
    if delim == -1 then (Some(s), Some(s))
    else
      (if delim > 0 then Some(s[..delim]) else None,
       if delim < |s| - 1 then Some(s[delim + 1..]) else None)
  }

  /** A range value is its start, '-', and its end, and the start holds no '-'. */
  lemma SplitRangeJoin(s: string)
    requires '-' in s
    ensures var (start, end) := SplitRange(s);
      s == OrEmpty(start) + "-" + OrEmpty(end) && '-' !in OrEmpty(start)
  {
    var d := IndexOfChar(s, '-');
    assert s == s[..d] + "-" + s[d + 1..];
    assert d == |s| - 1 ==> s[d + 1..] == [];
  }

  function OrEmpty(s: Option<string>): string
  {
    if s.None? then "" else s.value
  }

  // ---------------------------------------------------------------- predicates

  /** wildCard: None (returns false, adds nothing) for a universal value or one
      whose pattern is a lone '%'; otherwise the one criterion it adds: LIKE for
      a value with wildcards, equality for any other. */
  function WildCard(property: string, value: Option<string>, ignoreCase: bool): (r: Option<Criterion>)
    ensures r.None? <==> IsUniversalValue(value) || (value.value != [] && AllStars(value.value))
    ensures r.Some? && ContainsWildcard(value.value) ==> r == Some(Like(property, value.value, ignoreCase))
    ensures r.Some? && !ContainsWildcard(value.value) ==> r == Some(Eq(property, value.value))
  {
    if IsUniversalValue(value) then None
    else if ContainsWildcard(value.value) then
      PureStarPattern(value.value);
      if LikeFrom(value.value, 0 as char) == "%" then None
      else Some(Like(property, value.value, ignoreCase))
    else
      Some(Eq(property, value.value))
  }

  /** anyOf: nothing for universal values; the one value's criterion for a single
      value; for several, the disjunction of their criteria, or nothing at all
      as soon as one of them adds nothing. */
  method AnyOf(property: string, values: Option<seq<Option<string>>>, ignoreCase: bool)
    returns (r: Option<Criterion>)
    ensures IsUniversalMatching(values) ==> r.None?
    ensures values.Some? && (exists i :: 0 <= i < |values.value| && IsUniversalValue(values.value[i])) ==> r.None?
    ensures !IsUniversalMatching(values) && |values.value| == 1 ==> r == WildCard(property, values.value[0], ignoreCase)
    ensures !IsUniversalMatching(values) && |values.value| > 1 ==>
      (r.None? <==> exists i :: 0 <= i < |values.value| && WildCard(property, values.value[i], ignoreCase).None?)
    ensures !IsUniversalMatching(values) && |values.value| > 1 && r.Some? ==>
      r.value.Or? && |r.value.alternatives| == |values.value| &&
      forall i :: 0 <= i < |values.value| ==> Some(r.value.alternatives[i]) == WildCard(property, values.value[i], ignoreCase)
  {
    if IsUniversalMatching(values) {
      return None;
    }
    var vs := values.value;
    if |vs| == 1 {
      return WildCard(property, vs[0], ignoreCase);
    }
    var alternatives: seq<Criterion> := [];
    var i := 0;
    while i < |vs|
      invariant 0 <= i <= |vs| && |alternatives| == i
      invariant forall j :: 0 <= j < i ==> Some(alternatives[j]) == WildCard(property, vs[j], ignoreCase)
    {
      var c := WildCard(property, vs[i], ignoreCase);
      if c.None? {
        return None;
      }
      alternatives := alternatives + [c.value];
      i := i + 1;
    }
    return Some(Or(alternatives));
  }
}
