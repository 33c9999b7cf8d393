/** Behaviour of the few Java library routines the plugin leans on, stated once and
    shared by every other module: Integer.parseInt, String.trim, String.compareTo,
    indexOf/lastIndexOf/contains, the two flavours of "split" (java.lang.String.split
    and dcm4che's StringUtils.split), ASCII case folding and 32-bit wrap-around. */
module JavaText {

  datatype Option<+T> = None | Some(value: T)

  /** An operation that either yields a value or raises the exception `error`. */
  datatype Result<+T, +E> = Ok(value: T) | Err(error: E)

  // ---------------------------------------------------------------- int32

  const INT_MIN: int := -0x8000_0000
  const INT_MAX: int := 0x7fff_ffff

  predicate IsInt32(x: int) { INT_MIN <= x <= INT_MAX }

  /** Java `int` arithmetic: the mathematical value reduced into [INT_MIN, INT_MAX]. */
  function Wrap32(x: int): (r: int)
    ensures IsInt32(r)
    ensures (r - x) % 0x1_0000_0000 == 0
    ensures IsInt32(x) ==> r == x
  {
    (x - INT_MIN) % 0x1_0000_0000 + INT_MIN
  }

  /** Sign of a comparator result, as Comparable callers read it. */
  function Signum(x: int): int { if x < 0 then -1 else if x > 0 then 1 else 0 }

  // ---------------------------------------------------------------- Integer.parseInt

  /** Value of an ASCII digit in `radix` (Character.digit restricted to ASCII). */
  function DigitValue(c: char, radix: nat): (d: Option<nat>)
    ensures d.Some? ==> d.value < radix
  {
    var v: int :=
      if '0' <= c <= '9' then c as int - '0' as int
      else if 'a' <= c <= 'z' then c as int - 'a' as int + 10
      else if 'A' <= c <= 'Z' then c as int - 'A' as int + 10
      else -1;
    if 0 <= v < radix then Some(v) else None
  }

  predicate AllDigits(s: string, radix: nat) {
    forall i :: 0 <= i < |s| ==> DigitValue(s[i], radix).Some?
  }

  /** Positional value of a string of digits, most significant first. */
  function DigitsValue(s: string, radix: nat): nat
    requires AllDigits(s, radix)
  {
    if s == [] then 0
    else DigitsValue(s[..|s| - 1], radix) * radix + DigitValue(s[|s| - 1], radix).value
  }

  /** java.lang.Integer.parseInt(s, radix); None is the NumberFormatException. An
      optional leading '+' or '-' is followed by at least one digit, and the value
      must fit in an int. */
  function ParseInt(s: string, radix: nat): (r: Option<int>)
    requires 2 <= radix <= 36
    ensures r.Some? ==> IsInt32(r.value)
    ensures r.Some? ==> |s| > 0
  {
    if s == [] then None
    else
      var neg := s[0] == '-';
      var body := if s[0] == '-' || s[0] == '+' then s[1..] else s;
      if body == [] || !AllDigits(body, radix) then None
      else
        var v: int := if neg then -(DigitsValue(body, radix) as int) else DigitsValue(body, radix);
        if IsInt32(v) then Some(v) else None
  }

  /** The digit of value `d`: '0'..'9', then 'a'..'z' (Character.forDigit). */
  function RadixDigit(d: nat, radix: nat): (c: char)
    requires d < radix <= 36
    ensures DigitValue(c, radix) == Some(d)
  {
    if d < 10 then ('0' as int + d) as char else ('a' as int + d - 10) as char
  }

  /** Integer.toString(n, radix) of a non-negative value. */
  function ToRadix(n: nat, radix: nat): (s: string)
    requires 2 <= radix <= 36
    ensures |s| > 0 && AllDigits(s, radix)
    decreases n
  {
    if n < radix then [RadixDigit(n, radix)]
    else
      DivShrinks(n, radix);
      var t := ToRadix(n / radix, radix);
      DigitsSnoc(t, n % radix, radix);
      t + [RadixDigit(n % radix, radix)]
  }

  lemma {:induction false} RadixValue(n: nat, radix: nat)
    requires 2 <= radix <= 36
    ensures DigitsValue(ToRadix(n, radix), radix) == n
    decreases n
  {
    var s := ToRadix(n, radix);
    if n >= radix {
      var q, r := n / radix, n % radix;
      DivShrinks(n, radix);
      RadixValue(q, radix);
      DigitsSnoc(ToRadix(q, radix), r, radix);
      assert s == ToRadix(q, radix) + [RadixDigit(r, radix)];
      DivMod(n, radix);
    } else {
      assert s[..|s| - 1] == [];
    }
  }

  lemma DigitsSnoc(t: string, r: nat, radix: nat)
    requires r < radix <= 36 && AllDigits(t, radix)
    ensures AllDigits(t + [RadixDigit(r, radix)], radix)
    ensures DigitsValue(t + [RadixDigit(r, radix)], radix) == DigitsValue(t, radix) * radix + r
  {
    var s := t + [RadixDigit(r, radix)];
    assert s[..|s| - 1] == t;
  }

  lemma DivMod(n: nat, radix: nat)
    requires radix >= 2
    ensures n == (n / radix) * radix + n % radix
  {
  }

  lemma DivShrinks(n: nat, radix: nat)
    requires 2 <= radix <= n
    ensures n / radix < n
  {
    var q := n / radix;
    assert q * radix <= n;
    MulAtLeastDouble(q, radix);
  }

  lemma MulAtLeastDouble(q: nat, radix: nat)
    requires radix >= 2
    ensures q * radix >= 2 * q
  {
  }

  /** Parsing what Integer.toString printed gives the number back. */
  lemma ParseRadix(n: nat, radix: nat)
    requires 2 <= radix <= 36 && n <= INT_MAX
    ensures ParseInt(ToRadix(n, radix), radix) == Some(n)
  {
    RadixValue(n, radix);
    assert ToRadix(n, radix)[0] != '-' && ToRadix(n, radix)[0] != '+' by {
      assert DigitValue(ToRadix(n, radix)[0], radix).Some?;
    }
  }

  // ---------------------------------------------------------------- trim, case

  /** Characters String.trim removes: every character up to and including ' '. */
  predicate IsTrimmed(c: char) { c <= ' ' }

  function TrimStart(s: string): (r: string)
    ensures |r| <= |s| && r == s[|s| - |r|..]
    ensures forall i :: 0 <= i < |s| - |r| ==> IsTrimmed(s[i])
    ensures r == [] || !IsTrimmed(r[0])
  {
    if s != [] && IsTrimmed(s[0]) then
      var r := TrimStart(s[1..]);
      assert s[1..][|s| - 1 - |r|..] == s[|s| - |r|..];
      assert forall i :: 1 <= i < |s| - |r| ==> s[i] == s[1..][i - 1];
      r
    else s
  }

  function TrimEnd(s: string): (r: string)
    ensures |r| <= |s| && r == s[..|r|]
    ensures forall i :: |r| <= i < |s| ==> IsTrimmed(s[i])
    ensures r == [] || !IsTrimmed(r[|r| - 1])
  {
    if s != [] && IsTrimmed(s[|s| - 1]) then
      var r := TrimEnd(s[..|s| - 1]);
      assert s[..|s| - 1][..|r|] == s[..|r|];
      r
    else s
  }

  /** String.trim: the longest slice of `s` that neither starts nor ends with a
      control character or space. */
  function Trim(s: string): (r: string)
    ensures exists i, j :: 0 <= i <= j <= |s| && r == s[i..j]
    ensures r == [] || (!IsTrimmed(r[0]) && !IsTrimmed(r[|r| - 1]))
    ensures (forall i :: 0 <= i < |s| ==> IsTrimmed(s[i])) <==> r == []
  {
    var t := TrimStart(s);
    var r := TrimEnd(t);
    assert r == s[|s| - |t|..|s| - |t| + |r|];
    r
  }

  function UpperChar(c: char): char { if 'a' <= c <= 'z' then (c as int - 32) as char else c }
  function LowerChar(c: char): char { if 'A' <= c <= 'Z' then (c as int + 32) as char else c }

  /** String.toUpperCase on ASCII letters. */
  function ToUpper(s: string): (r: string)
    ensures |r| == |s| && forall i :: 0 <= i < |s| ==> r[i] == UpperChar(s[i])
  {
    if s == [] then [] else [UpperChar(s[0])] + ToUpper(s[1..])
  }

  /** String.toLowerCase on ASCII letters. */
  function ToLower(s: string): (r: string)
    ensures |r| == |s| && forall i :: 0 <= i < |s| ==> r[i] == LowerChar(s[i])
  {
    if s == [] then [] else [LowerChar(s[0])] + ToLower(s[1..])
  }

  /** String.equalsIgnoreCase for ASCII text. */
  predicate EqualsIgnoreCase(a: string, b: string) {
    |a| == |b| && forall i :: 0 <= i < |a| ==> LowerChar(a[i]) == LowerChar(b[i])
  }

  // ---------------------------------------------------------------- compareTo

  /** String.compareTo: the difference of the first differing characters, otherwise
      the difference of the lengths. */
  function CompareTo(a: string, b: string): int
  {
    if a == [] || b == [] then |a| - |b|
    else if a[0] != b[0] then a[0] as int - b[0] as int
    else CompareTo(a[1..], b[1..])
  }

  lemma {:induction false} CompareToZero(a: string, b: string)
    ensures CompareTo(a, b) == 0 <==> a == b
  {
    if a != [] && b != [] && a[0] == b[0] {
      CompareToZero(a[1..], b[1..]);
      assert a == [a[0]] + a[1..] && b == [b[0]] + b[1..];
    }
  }

  lemma {:induction false} CompareToAntisymmetric(a: string, b: string)
    ensures CompareTo(a, b) == -CompareTo(b, a)
  {
    if a != [] && b != [] && a[0] == b[0] {
      CompareToAntisymmetric(a[1..], b[1..]);
    }
  }

  lemma {:induction false} CompareToTransitive(a: string, b: string, c: string)
    requires CompareTo(a, b) < 0 && CompareTo(b, c) < 0
    ensures CompareTo(a, c) < 0
  {
    if a != [] && b != [] && c != [] && a[0] == b[0] && b[0] == c[0] {
      CompareToTransitive(a[1..], b[1..], c[1..]);
    }
  }

  // ---------------------------------------------------------------- searching

  /** True when `d` occurs in `s` starting at `k`. */
  predicate OccursAt(s: string, d: string, k: int) {
    0 <= k && k + |d| <= |s| && s[k..k + |d|] == d
  }

  /** A slice of the tail is the slice one place further along. */
  lemma SliceOfTail(s: string, k: int, n: nat)
    requires 1 <= k && k + n <= |s|
    ensures s[1..][k - 1..k - 1 + n] == s[k..k + n]
  {
    var a, b := s[1..][k - 1..k - 1 + n], s[k..k + n];
    forall j | 0 <= j < n ensures a[j] == b[j] {
      assert a[j] == s[1..][k - 1 + j] == s[k + j];
    }
    assert a == b;
  }

  /** String.indexOf(d): the first occurrence, or -1. */
  function IndexOf(s: string, d: string): (r: int)
    ensures -1 <= r <= |s|
    ensures r >= 0 ==> OccursAt(s, d, r)
    ensures forall k :: 0 <= k < (if r < 0 then |s| + 1 else r) ==> !OccursAt(s, d, k)
  {
    if |s| < |d| then -1
    else if s[..|d|] == d then 0
    else
      var r := IndexOf(s[1..], d);
      assert forall k :: 1 <= k ==> (OccursAt(s, d, k) <==> OccursAt(s[1..], d, k - 1)) by {
        forall k | 1 <= k ensures OccursAt(s, d, k) <==> OccursAt(s[1..], d, k - 1) {
          if k + |d| <= |s| { SliceOfTail(s, k, |d|); }
        }
      }
      if r < 0 then -1 else r + 1
  }

  /** String.lastIndexOf(d): the last occurrence, or -1. */
  function LastIndexOf(s: string, d: string): (r: int)
    ensures -1 <= r <= |s|
    ensures r >= 0 ==> OccursAt(s, d, r)
    ensures forall k :: r < k <= |s| ==> !OccursAt(s, d, k)
  {
    if |s| < |d| then -1
    else if s[|s| - |d|..] == d then |s| - |d|
    else
      var r := LastIndexOf(s[..|s| - 1], d);
      assert forall k :: 0 <= k && k + |d| <= |s| - 1 ==>
        (OccursAt(s, d, k) <==> OccursAt(s[..|s| - 1], d, k)) by {
        forall k | 0 <= k && k + |d| <= |s| - 1
          ensures OccursAt(s, d, k) <==> OccursAt(s[..|s| - 1], d, k) {
          assert s[k..k + |d|] == s[..|s| - 1][k..k + |d|];
        }
      }
      r
  }

  predicate Contains(s: string, d: string) { IndexOf(s, d) >= 0 }

  lemma ContainsAt(s: string, d: string, k: int)
    requires OccursAt(s, d, k)
    ensures Contains(s, d)
  {
  }

  /** String.indexOf(char). */
  function IndexOfChar(s: string, c: char): (r: int)
    ensures -1 <= r < |s|
    ensures r >= 0 ==> s[r] == c
    ensures forall k :: 0 <= k < (if r < 0 then |s| else r) ==> s[k] != c
  {
    if s == [] then -1
    else if s[0] == c then 0
    else var r := IndexOfChar(s[1..], c); if r < 0 then -1 else r + 1
  }

  // ---------------------------------------------------------------- split

  /** The pieces between successive non-overlapping occurrences of `d`, scanning
      left to right, empty pieces included. */
  function Pieces(s: string, d: string): (r: seq<string>)
    requires |d| > 0
    ensures |r| >= 1
    decreases |s|
  {
    var i := IndexOf(s, d);
    if i < 0 then [s] else [s[..i]] + Pieces(s[i + |d|..], d)
  }

  /** The inverse of splitting: the pieces glued back with `d`. */
  function JoinWith(ps: seq<string>, d: string): string
  {
    if ps == [] then [] else if |ps| == 1 then ps[0] else ps[0] + d + JoinWith(ps[1..], d)
  }

  /** The piece in front of the first separator holds no separator. */
  lemma FirstPieceClean(s: string, d: string, i: int)
    requires |d| > 0
    requires 0 <= i <= |s| && forall k :: 0 <= k < i ==> !OccursAt(s, d, k)
    ensures !Contains(s[..i], d)
  {
    var j := IndexOf(s[..i], d);
    if j >= 0 {
      assert s[..i][j..j + |d|] == s[j..j + |d|];
      assert OccursAt(s, d, j);
    }
  }

  /** Splitting and gluing back loses nothing, and no piece holds the separator. */
  lemma {:induction false} PiecesJoin(s: string, d: string)
    requires |d| > 0
    ensures JoinWith(Pieces(s, d), d) == s
    ensures forall k :: 0 <= k < |Pieces(s, d)| ==> !Contains(Pieces(s, d)[k], d)
    decreases |s|
  {
    var i := IndexOf(s, d);
    if i >= 0 {
      var rest := s[i + |d|..];
      var tail := Pieces(rest, d);
      PiecesJoin(rest, d);
      FirstPieceClean(s, d, i);
      var ps := Pieces(s, d);
      assert ps == [s[..i]] + tail;
      assert JoinWith(ps, d) == s[..i] + d + JoinWith(tail, d);
      assert s == s[..i] + s[i..i + |d|] + rest;
      forall k | 0 <= k < |ps| ensures !Contains(ps[k], d) {
        if k > 0 { assert ps[k] == tail[k - 1]; }
      }
    }
  }

  /** Gluing one more piece on the end. */
  lemma {:induction false} JoinWithSnoc(ps: seq<string>, d: string, last: string)
    requires |ps| > 0
    ensures JoinWith(ps + [last], d) == JoinWith(ps, d) + d + last
  {
    if |ps| > 1 {
      JoinWithSnoc(ps[1..], d, last);
      assert (ps + [last])[1..] == ps[1..] + [last];
    }
  }

  /** A string without `c` has no occurrence of it. */
  lemma {:induction false} IndexOfAbsentChar(s: string, c: char)
    requires c !in s
    ensures IndexOf(s, [c]) == -1
  {
    if |s| >= 1 {
      assert s[..1] != [c] by { assert s[..1][0] == s[0]; }
      IndexOfAbsentChar(s[1..], c);
    }
  }

  /** The first `c` of a + [c] + b is the one after `a` when `a` holds none. */
  lemma {:induction false} IndexOfFirstChar(a: string, c: char, b: string)
    requires c !in a
    ensures IndexOf(a + [c] + b, [c]) == |a|
  {
    var s := a + [c] + b;
    if a == [] {
      assert s[..1] == [c];
    } else {
      assert s[..1] != [c] by { assert s[..1][0] == a[0]; }
      assert s[1..] == a[1..] + [c] + b;
      IndexOfFirstChar(a[1..], c, b);
    }
  }

  /** Splitting what was glued with a character no piece holds gives the pieces back. */
  lemma {:induction false} PiecesOfJoin(ps: seq<string>, c: char)
    requires |ps| >= 1 && forall k :: 0 <= k < |ps| ==> c !in ps[k]
    ensures Pieces(JoinWith(ps, [c]), [c]) == ps
  {
    if |ps| == 1 {
      IndexOfAbsentChar(ps[0], c);
    } else {
      var rest := JoinWith(ps[1..], [c]);
      var s := ps[0] + [c] + rest;
      assert JoinWith(ps, [c]) == s;
      IndexOfFirstChar(ps[0], c, rest);
      assert s[..|ps[0]|] == ps[0];
      assert s[|ps[0]| + 1..] == rest;
      PiecesOfJoin(ps[1..], c);
    }
  }

  /** org.dcm4che3.util.StringUtils.split(s, delim): the empty string gives no
      pieces; otherwise every piece between delimiters, empty ones included. */
  function DcmSplit(s: string, delim: char): (r: seq<string>)
    ensures s == [] <==> r == []
  {
    if s == [] then [] else Pieces(s, [delim])
  }

  /** Drops the empty strings at the end of a split result. */
  function DropTrailingEmpty(ps: seq<string>): (r: seq<string>)
    ensures |r| <= |ps| && r == ps[..|r|]
    ensures r == [] || r[|r| - 1] != []
    ensures forall k :: |r| <= k < |ps| ==> ps[k] == []
  {
    if ps == [] || ps[|ps| - 1] != [] then ps else DropTrailingEmpty(ps[..|ps| - 1])
  }

  /** java.lang.String.split with a literal separator and no limit: without any
      occurrence the whole string is the one piece; otherwise the pieces, with the
      trailing empty ones removed. */
  function JavaSplit(s: string, d: string): (r: seq<string>)
    requires |d| > 0
  {
    if IndexOf(s, d) < 0 then [s] else DropTrailingEmpty(Pieces(s, d))
  }

  /** The number of occurrences `Pieces` separates at: one fewer than its pieces. */
  lemma {:induction false} PiecesNoSeparator(s: string, d: string)
    requires |d| > 0 && !Contains(s, d)
    ensures Pieces(s, d) == [s]
  {
  }

  /** Replaces every occurrence of the character `a` by `b` (String.replace(char, char)). */
  function ReplaceChar(s: string, a: char, b: char): (r: string)
    ensures |r| == |s|
    ensures forall i :: 0 <= i < |s| ==> r[i] == (if s[i] == a then b else s[i])
  {
    if s == [] then [] else [if s[0] == a then b else s[0]] + ReplaceChar(s[1..], a, b)
  }

  // ---------------------------------------------------------------- StringBuffer

  /** StringBuffer.setLength(n): the first `n` characters, or the text padded with
      '\u0000' up to `n`. */
  function Truncated(s: string, n: nat): (r: string)
    ensures |r| == n
    ensures n <= |s| ==> r == s[..n]
    ensures n > |s| ==> r[..|s|] == s && forall k :: |s| <= k < n ==> r[k] == 0 as char
  {
    if n <= |s| then s[..n] else s + seq(n - |s|, _ => 0 as char)
  }

  /** java.lang.StringBuffer, holding its characters in `text`. */
  class StringBuffer {
    var text: string

    constructor(s: string)
      ensures text == s
    {
      text := s;
    }

    method Append(s: string)
      modifies this
      ensures text == old(text) + s
    {
      text := text + s;
    }

    /** A negative length is an IndexOutOfBoundsException in Java. */
    method SetLength(n: nat)
      modifies this
      ensures text == Truncated(old(text), n)
    {
      text := Truncated(text, n);
    }
  }
}
