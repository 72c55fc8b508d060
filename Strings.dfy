/**
 * The pieces of Rust's `str` and `String` API that the pipeline relies on, over `seq<char>`:
 * whitespace trimming, searching, splitting, joining, ASCII case mapping, `\r\n` replacement
 * and decimal rendering of integers.
 */
module Strings {
  import opened Wrappers

  /** `char::is_whitespace`: the Unicode White_Space property. */
  predicate IsWhitespace(c: char) {
    ('\t' <= c <= '\r') || c == ' ' || c == '\U{0085}' || c == '\U{00A0}' || c == '\U{1680}'
    || ('\U{2000}' <= c <= '\U{200A}') || c == '\U{2028}' || c == '\U{2029}'
    || c == '\U{202F}' || c == '\U{205F}' || c == '\U{3000}'
  }

  predicate AllWhitespace(s: string) {
    forall i :: 0 <= i < |s| ==> IsWhitespace(s[i])
  }

  predicate NoWhitespace(s: string) {
    forall i :: 0 <= i < |s| ==> !IsWhitespace(s[i])
  }

  // ---------------------------------------------------------------- trimming

  lemma {:induction false} AllWhitespaceCons(c: char, w: string)
    requires IsWhitespace(c) && AllWhitespace(w)
    ensures AllWhitespace([c] + w)
  {
    var v := [c] + w;
    assert forall i :: 1 <= i < |v| ==> v[i] == w[i - 1];
  }

  lemma {:induction false} AllWhitespaceSnoc(w: string, c: char)
    requires AllWhitespace(w) && IsWhitespace(c)
    ensures AllWhitespace(w + [c])
  {
    var v := w + [c];
    assert forall i :: 0 <= i < |w| ==> v[i] == w[i];
  }

  /** `str::trim_start`: drops the longest all-whitespace prefix (see `TrimStartSplit`). */
  function TrimStart(s: string): (r: string)
    ensures |r| <= |s|
    ensures r == [] || !IsWhitespace(r[0])
  {
    if s != [] && IsWhitespace(s[0]) then TrimStart(s[1..]) else s
  }

  /** What `TrimStart` keeps is a suffix, and everything before it is whitespace. */
  lemma {:induction false} TrimStartSplit(s: string)
    ensures var r := TrimStart(s); r == s[|s| - |r|..] && AllWhitespace(s[..|s| - |r|])
    decreases |s|
  {
    if s != [] && IsWhitespace(s[0]) {
      TrimStartSplit(s[1..]);
      TrimStartStep(s, TrimStart(s[1..]));
    } else {
      assert s[..0] == [];
    }
  }

  lemma {:induction false} TrimStartStep(s: string, r: string)
    requires s != [] && IsWhitespace(s[0])
    requires |r| <= |s| - 1 && r == s[1..][|s| - 1 - |r|..] && AllWhitespace(s[1..][..|s| - 1 - |r|])
    ensures r == s[|s| - |r|..] && AllWhitespace(s[..|s| - |r|])
  {
    var t := s[1..];
    var k := |t| - |r|;
    assert t[k..] == s[k + 1..];
    assert s[..k + 1] == [s[0]] + t[..k];
    AllWhitespaceCons(s[0], t[..k]);
  }

  /** `str::trim_end`: drops the longest all-whitespace suffix (see `TrimEndSplit`). */
  function TrimEnd(s: string): (r: string)
    ensures |r| <= |s|
    ensures r == [] || !IsWhitespace(r[|r| - 1])
  {
    if s != [] && IsWhitespace(s[|s| - 1]) then TrimEnd(s[..|s| - 1]) else s
  }

  /** What `TrimEnd` keeps is a prefix, and everything after it is whitespace. */
  lemma {:induction false} TrimEndSplit(s: string)
    ensures var r := TrimEnd(s); r == s[..|r|] && AllWhitespace(s[|r|..])
    decreases |s|
  {
    if s != [] && IsWhitespace(s[|s| - 1]) {
      TrimEndSplit(s[..|s| - 1]);
      TrimEndStep(s, TrimEnd(s[..|s| - 1]));
    } else {
      assert s[|s|..] == [];
    }
  }

  lemma {:induction false} TrimEndStep(s: string, r: string)
    requires s != [] && IsWhitespace(s[|s| - 1])
    requires |r| <= |s| - 1 && r == s[..|s| - 1][..|r|] && AllWhitespace(s[..|s| - 1][|r|..])
    ensures r == s[..|r|] && AllWhitespace(s[|r|..])
  {
    var t := s[..|s| - 1];
    assert t[..|r|] == s[..|r|];
    assert s[|r|..] == t[|r|..] + [s[|s| - 1]];
    AllWhitespaceSnoc(t[|r|..], s[|s| - 1]);
  }

  /** `str::trim`. */
  function Trim(s: string): (r: string)
    ensures r == [] || (!IsWhitespace(r[0]) && !IsWhitespace(r[|r| - 1]))
    ensures r == [] <==> AllWhitespace(s)
  {
    var e := TrimEnd(s);
    var r := TrimStart(e);
    TrimMeaning(s, e, r);
    r
  }

  lemma {:induction false} TrimMeaning(s: string, e: string, r: string)
    requires e == TrimEnd(s) && r == TrimStart(e)
    ensures r == [] || (!IsWhitespace(r[0]) && !IsWhitespace(r[|r| - 1]))
    ensures r == [] <==> AllWhitespace(s)
  {
    TrimEndSplit(s);
    TrimStartSplit(e);
    assert r != [] ==> r[|r| - 1] == e[|e| - 1];
    assert e != [] ==> e[|e| - 1] == s[|e| - 1];
    if r == [] {
      WhitespaceThenWhitespace(e, s[|e|..]);
      assert e[..|e|] == e;
      assert s == e + s[|e|..];
    }
  }

  lemma {:induction false} WhitespaceThenWhitespace(a: string, b: string)
    requires AllWhitespace(a) && AllWhitespace(b)
    ensures AllWhitespace(a + b)
  {
    var v := a + b;
    assert forall i :: 0 <= i < |v| ==> v[i] == if i < |a| then a[i] else b[i - |a|];
  }

  lemma {:induction false} AllWhitespaceTrimStart(s: string)
    ensures AllWhitespace(s) <==> TrimStart(s) == []
  {
    TrimStartSplit(s);
    if TrimStart(s) == [] {
      assert s[..|s|] == s;
    }
  }

  lemma {:induction false} TrimStartAfterWhitespace(w: string, s: string)
    requires AllWhitespace(w)
    ensures TrimStart(w + s) == TrimStart(s)
  {
    if w != [] {
      assert (w + s)[0] == w[0];
      assert (w + s)[1..] == w[1..] + s;
      assert TrimStart(w + s) == TrimStart(w[1..] + s);
      TrimStartAfterWhitespace(w[1..], s);
    } else {
      assert w + s == s;
    }
  }

  lemma {:induction false} TrimEndBeforeWhitespace(s: string, w: string)
    requires AllWhitespace(w)
    ensures TrimEnd(s + w) == TrimEnd(s)
  {
    if w != [] {
      assert (s + w)[|s + w| - 1] == w[|w| - 1];
      assert (s + w)[..|s + w| - 1] == s + w[..|w| - 1];
      assert TrimEnd(s + w) == TrimEnd(s + w[..|w| - 1]);
      TrimEndBeforeWhitespace(s, w[..|w| - 1]);
    } else {
      assert s + w == s;
    }
  }

  lemma {:induction false} TrimEndAppend(s: string, t: string)
    requires TrimEnd(t) != []
    ensures TrimEnd(s + t) == s + TrimEnd(t)
  {
    if IsWhitespace(t[|t| - 1]) {
      assert (s + t)[..|s + t| - 1] == s + t[..|t| - 1];
      TrimEndAppend(s, t[..|t| - 1]);
    }
  }

  /**
   * Trimming ignores whatever whitespace surrounds its argument; this is why a canonical key
   * built from trimmed fields does not change when a field gains padding.
   */
  lemma {:induction false} TrimPadded(w1: string, s: string, w2: string)
    requires AllWhitespace(w1) && AllWhitespace(w2)
    ensures Trim(w1 + s + w2) == Trim(s)
  {
    TrimEndBeforeWhitespace(w1 + s, w2);
    assert TrimEnd(w1 + s + w2) == TrimEnd(w1 + s);
    if TrimEnd(s) == [] {
      TrimEndSplit(s);
      TrimEndSplit(w1 + s);
      assert AllWhitespace(s[|TrimEnd(s)|..]);
      assert s[0..] == s;
      assert AllWhitespace(w1 + s);
      AllWhitespaceTrimStart(w1 + s);
      var e := TrimEnd(w1 + s);
      assert AllWhitespace(e) by {
        assert e == (w1 + s)[..|e|];
      }
      AllWhitespaceTrimStart(e);
    } else {
      TrimEndAppend(w1, s);
      TrimStartAfterWhitespace(w1, TrimEnd(s));
    }
  }

  lemma {:induction false} TrimEndIdempotent(s: string)
    ensures TrimEnd(TrimEnd(s)) == TrimEnd(s)
  {
    var e := TrimEnd(s);
    if e != [] {
      TrimEndKeeps(e);
    }
  }

  /** Trimming the end first changes nothing about the full trim. */
  lemma {:induction false} TrimAfterTrimEnd(s: string)
    ensures Trim(TrimEnd(s)) == Trim(s)
  {
    TrimEndIdempotent(s);
  }

  lemma {:induction false} TrimIdempotent(s: string)
    ensures Trim(Trim(s)) == Trim(s)
  {
  }

  // ---------------------------------------------------------------- searching

  predicate StartsWith(s: string, p: string) {
    |p| <= |s| && s[..|p|] == p
  }

  predicate EndsWith(s: string, p: string) {
    |p| <= |s| && s[|s| - |p|..] == p
  }

  predicate OccursAt(s: string, p: string, i: nat) {
    i + |p| <= |s| && s[i..i + |p|] == p
  }

  /** `str::find(char)`, and `position` on a byte slice: the index of the first occurrence of x. */
  function IndexOf<T(==)>(s: seq<T>, x: T): (r: Option<nat>)
    ensures r.Some? ==> r.value < |s| && s[r.value] == x && x !in s[..r.value]
    ensures r.None? <==> x !in s
  {
    if s == [] then None
    else if s[0] == x then Some(0)
    else
      match IndexOf(s[1..], x)
      case None => None
      case Some(k) =>
        assert s[..k + 1] == [s[0]] + s[1..][..k];
        Some(k + 1)
  }

  /** The first x is the one right after a prefix that has none. */
  lemma {:induction false} IndexOfAfter<T>(a: seq<T>, x: T, b: seq<T>)
    requires x !in a
    ensures IndexOf(a + [x] + b, x) == Some(|a|)
  {
    var s := a + [x] + b;
    assert s[|a|] == x && s[..|a|] == a;
  }

  function FindFrom(s: string, p: string, i: nat): (r: Option<nat>)
    requires i <= |s|
    ensures r.Some? ==> i <= r.value && OccursAt(s, p, r.value)
    ensures r.Some? ==> forall j :: i <= j < r.value ==> !OccursAt(s, p, j)
    ensures r.None? ==> forall j :: i <= j <= |s| ==> !OccursAt(s, p, j)
    decreases |s| - i
  {
    if OccursAt(s, p, i) then Some(i)
    else if i == |s| then None
    else FindFrom(s, p, i + 1)
  }

  /** `str::find(&str)`: the index of the leftmost occurrence of p. */
  function Find(s: string, p: string): (r: Option<nat>)
    ensures r.Some? ==> OccursAt(s, p, r.value)
    ensures r.Some? ==> forall j :: 0 <= j < r.value ==> !OccursAt(s, p, j)
    ensures r.None? ==> forall j :: 0 <= j <= |s| ==> !OccursAt(s, p, j)
  {
    FindFrom(s, p, 0)
  }

  /** The number of occurrences of c (for `'\n'` this is also the number of `0x0A` bytes). */
  function CountChar(s: string, c: char): (n: nat)
    ensures n == multiset(s)[c]
  {
    if s == [] then 0
    else
      assert s == [s[0]] + s[1..];
      (if s[0] == c then 1 else 0) + CountChar(s[1..], c)
  }

  // ---------------------------------------------------------------- splitting and joining

  /** `[T]::join(sep)` on strings. */
  function Join(parts: seq<string>, sep: string): string {
    if parts == [] then []
    else if |parts| == 1 then parts[0]
    else parts[0] + sep + Join(parts[1..], sep)
  }

  /** The length of the longest whitespace-free prefix of t. */
  function TokenEnd(t: string): (k: nat)
    ensures k <= |t| && NoWhitespace(t[..k])
    ensures k == |t| || IsWhitespace(t[k])
  {
    if t == [] || IsWhitespace(t[0]) then 0
    else
      var k := TokenEnd(t[1..]);
      assert t[..k + 1] == [t[0]] + t[1..][..k];
      k + 1
  }

  /** `str::split_whitespace`: the maximal whitespace-free pieces of s, in order. */
  function SplitWhitespace(s: string): (parts: seq<string>)
    ensures forall i :: 0 <= i < |parts| ==> parts[i] != [] && NoWhitespace(parts[i])
    decreases |s|
  {
    if s == [] then []
    else if IsWhitespace(s[0]) then SplitWhitespace(s[1..])
    else
      var k := TokenEnd(s);
      [s[..k]] + SplitWhitespace(s[k..])
  }

  /** Pieces that `SplitWhitespace` could have produced. */
  predicate Words(parts: seq<string>) {
    forall i :: 0 <= i < |parts| ==> parts[i] != [] && NoWhitespace(parts[i])
  }

  /** Splitting undoes joining with single spaces. */
  lemma {:induction false} SplitJoin(parts: seq<string>)
    requires Words(parts)
    ensures SplitWhitespace(Join(parts, " ")) == parts
  {
    if |parts| <= 1 {
      SplitJoinShort(parts);
    } else {
      var w, rest := parts[0], Join(parts[1..], " ");
      assert Join(parts, " ") == w + " " + rest;
      SplitCons(w, rest);
      SplitJoin(parts[1..]);
      assert parts == [w] + parts[1..];
    }
  }

  lemma {:induction false} SplitJoinShort(parts: seq<string>)
    requires Words(parts) && |parts| <= 1
    ensures SplitWhitespace(Join(parts, " ")) == parts
  {
    if parts == [] {
    } else {
      var w := parts[0];
      assert parts == [w];
      assert Join(parts, " ") == w;
      SplitSingleWord(w);
    }
  }

  lemma {:induction false} SplitSingleWord(w: string)
    requires w != [] && NoWhitespace(w)
    ensures SplitWhitespace(w) == [w]
  {
    assert w[..|w|] == w;
    SplitAt(w, |w|);
    assert w[|w|..] == [];
  }

  lemma {:induction false} SplitAfterWhitespace(w: string, s: string)
    requires AllWhitespace(w)
    ensures SplitWhitespace(w + s) == SplitWhitespace(s)
  {
    if w != [] {
      assert (w + s)[0] == w[0];
      assert (w + s)[1..] == w[1..] + s;
      SplitAfterWhitespace(w[1..], s);
    } else {
      assert w + s == s;
    }
  }

  lemma {:induction false} SplitCons(w: string, rest: string)
    requires w != [] && NoWhitespace(w)
    ensures SplitWhitespace(w + " " + rest) == [w] + SplitWhitespace(rest)
  {
    var s := w + " " + rest;
    assert s[..|w|] == w && s[|w|..] == " " + rest;
    SplitAt(s, |w|);
    SplitAfterWhitespace(" ", rest);
  }

  /** A whitespace-free, non-empty prefix ending at whitespace (or the end) is the first piece. */
  lemma {:induction false} SplitAt(s: string, k: nat)
    requires 0 < k <= |s| && NoWhitespace(s[..k])
    requires k == |s| || IsWhitespace(s[k])
    ensures SplitWhitespace(s) == [s[..k]] + SplitWhitespace(s[k..])
  {
    assert s[0] == s[..k][0];
    TokenEndAt(s, k);
  }

  lemma {:induction false} TokenEndAt(s: string, k: nat)
    requires k <= |s| && NoWhitespace(s[..k])
    requires k == |s| || IsWhitespace(s[k])
    ensures TokenEnd(s) == k
  {
    if k > 0 {
      assert s[0] == s[..k][0];
      assert s[1..][..k - 1] == s[..k][1..];
      TokenEndAt(s[1..], k - 1);
    }
  }

  /** No surrounding whitespace, and every whitespace character is a lone ' ' between words. */
  predicate SingleSpaced(r: string) {
    && (r == [] || (!IsWhitespace(r[0]) && !IsWhitespace(r[|r| - 1])))
    && (forall i :: 0 <= i < |r| && IsWhitespace(r[i]) ==> r[i] == ' ')
    && (forall i :: 0 <= i < |r| - 1 ==> !(IsWhitespace(r[i]) && IsWhitespace(r[i + 1])))
  }

  lemma {:induction false} JoinWordsSingleSpaced(parts: seq<string>)
    requires Words(parts)
    ensures SingleSpaced(Join(parts, " "))
  {
    if |parts| > 1 {
      JoinWordsSingleSpaced(parts[1..]);
      var p := parts[0];
      var rest := Join(parts[1..], " ");
      var r := p + " " + rest;
      assert rest != [] by { JoinNonEmpty(parts[1..]); }
      forall i | 0 <= i < |r| - 1
        ensures !(IsWhitespace(r[i]) && IsWhitespace(r[i + 1]))
      {
        if i < |p| - 1 {
          assert r[i] == p[i];
        } else if i == |p| - 1 {
          assert r[i] == p[i];
        } else if i == |p| {
          assert r[i + 1] == rest[0];
        } else {
          assert r[i] == rest[i - |p| - 1] && r[i + 1] == rest[i - |p|];
        }
      }
      forall i | 0 <= i < |r|
        ensures IsWhitespace(r[i]) ==> r[i] == ' '
      {
        if i < |p| {
          assert r[i] == p[i];
        } else if i > |p| {
          assert r[i] == rest[i - |p| - 1];
        }
      }
      assert r[|r| - 1] == rest[|rest| - 1];
    }
  }

  lemma {:induction false} JoinNonEmpty(parts: seq<string>)
    requires Words(parts) && parts != []
    ensures Join(parts, " ") != []
  {
  }

  // ---------------------------------------------------------------- character mapping

  predicate IsAsciiUpper(c: char) { 'A' <= c <= 'Z' }
  predicate IsAsciiAlphanumeric(c: char) { ('0' <= c <= '9') || ('a' <= c <= 'z') || IsAsciiUpper(c) }

  /** `char::to_ascii_lowercase`. */
  function AsciiLower(c: char): (l: char)
    ensures !IsAsciiUpper(l)
    ensures !IsAsciiUpper(c) ==> l == c
    ensures IsAsciiAlphanumeric(c) <==> IsAsciiAlphanumeric(l)
  {
    if IsAsciiUpper(c) then (c as int + 32) as char else c
  }

  /** Lower-cases the ASCII letters of s and keeps every other character. */
  function ToLowerAscii(s: string): (r: string)
    ensures |r| == |s|
    ensures forall i :: 0 <= i < |s| ==> !IsAsciiUpper(r[i]) && AsciiLower(s[i]) == r[i]
  {
    seq(|s|, i requires 0 <= i < |s| => AsciiLower(s[i]))
  }

  lemma {:induction false} ToLowerAsciiIdempotent(s: string)
    ensures ToLowerAscii(ToLowerAscii(s)) == ToLowerAscii(s)
  {
  }

  /** Lower-casing keeps whitespace where it is, so it commutes with trimming the start. */
  lemma {:induction false} TrimStartLower(s: string)
    ensures TrimStart(ToLowerAscii(s)) == ToLowerAscii(TrimStart(s))
    decreases |s|
  {
    if s != [] {
      var l := ToLowerAscii(s);
      assert l[1..] == ToLowerAscii(s[1..]);
      if IsWhitespace(s[0]) {
        TrimStartLower(s[1..]);
      } else {
        assert !IsWhitespace(l[0]);
      }
    }
  }

  /** Lower-casing commutes with trimming the end. */
  lemma {:induction false} TrimEndLower(s: string)
    ensures TrimEnd(ToLowerAscii(s)) == ToLowerAscii(TrimEnd(s))
    decreases |s|
  {
    if s != [] {
      var l := ToLowerAscii(s);
      assert l[..|l| - 1] == ToLowerAscii(s[..|s| - 1]);
      if IsWhitespace(s[|s| - 1]) {
        TrimEndLower(s[..|s| - 1]);
      } else {
        assert !IsWhitespace(l[|l| - 1]);
      }
    }
  }

  /** Lower-casing commutes with `trim`. */
  lemma {:induction false} TrimLower(s: string)
    ensures Trim(ToLowerAscii(s)) == ToLowerAscii(Trim(s))
  {
    TrimEndLower(s);
    TrimStartLower(TrimEnd(s));
  }

  // ---------------------------------------------------------------- line endings

  /** `str::replace("\r\n", "\n")`: left-to-right, non-overlapping. */
  function ReplaceCrlf(s: string): (r: string)
    ensures |r| <= |s|
    ensures r == [] <==> s == []
    ensures s != [] && s[0] != '\r' ==> r[0] == s[0]
    ensures '\r' !in s ==> r == s
  {
    if s == [] then []
    else if |s| >= 2 && s[0] == '\r' && s[1] == '\n' then "\n" + ReplaceCrlf(s[2..])
    else
      assert '\r' !in s ==> '\r' !in s[1..];
      [s[0]] + ReplaceCrlf(s[1..])
  }

  /** No '\r' of s is directly followed by '\n'. */
  predicate NoCrlf(s: string) {
    forall i :: 0 <= i < |s| - 1 ==> !(s[i] == '\r' && s[i + 1] == '\n')
  }

  /**
   * The replacement runs left to right: text without a "\r\n" pair is copied, the first pair
   * becomes "\n", and the rest is replaced on its own.
   */
  lemma {:induction false} ReplaceCrlfFirstPair(a: string, b: string)
    requires NoCrlf(a)
    ensures ReplaceCrlf(a + "\r\n" + b) == a + "\n" + ReplaceCrlf(b)
    decreases |a|
  {
    var s := a + "\r\n" + b;
    if a == [] {
      assert s[2..] == b;
    } else {
      var t := a[1..] + "\r\n" + b;
      assert s[0] == a[0] && s[1..] == t;
      assert s[1] == if |a| >= 2 then a[1] else '\r';
      ReplaceCrlfCopies(s);
      NoCrlfTail(a);
      ReplaceCrlfFirstPair(a[1..], b);
      assert a + "\n" + ReplaceCrlf(b) == [a[0]] + (a[1..] + "\n" + ReplaceCrlf(b));
    }
  }

  /** A character that does not open a "\r\n" pair is copied. */
  lemma {:induction false} ReplaceCrlfCopies(s: string)
    requires s != [] && !(|s| >= 2 && s[0] == '\r' && s[1] == '\n')
    ensures ReplaceCrlf(s) == [s[0]] + ReplaceCrlf(s[1..])
  {
  }

  lemma {:induction false} NoCrlfTail(a: string)
    requires a != [] && NoCrlf(a)
    ensures NoCrlf(a[1..])
  {
    forall i | 0 <= i < |a[1..]| - 1 ensures !(a[1..][i] == '\r' && a[1..][i + 1] == '\n') {
      assert a[1..][i] == a[i + 1] && a[1..][i + 1] == a[i + 2];
    }
  }

  // ---------------------------------------------------------------- numbers

  function DigitChar(d: nat): char
    requires d < 10
  {
    ('0' as int + d) as char
  }

  predicate IsDigit(c: char) { '0' <= c <= '9' }

  function DigitValue(c: char): nat
    requires IsDigit(c)
  {
    c as int - '0' as int
  }

  /** `u32`'s `Display`: decimal digits, no sign, no leading zero. */
  function NatToString(n: nat): (r: string)
    ensures r != [] && forall i :: 0 <= i < |r| ==> IsDigit(r[i])
    ensures r[0] == '0' ==> n == 0
  {
    if n < 10 then [DigitChar(n)] else NatToString(n / 10) + [DigitChar(n % 10)]
  }

  /** The value a string of decimal digits denotes. */
  function DecimalValue(s: string): nat
    requires forall i :: 0 <= i < |s| ==> IsDigit(s[i])
  {
    if s == [] then 0 else DecimalValue(s[..|s| - 1]) * 10 + DigitValue(s[|s| - 1])
  }

  lemma {:induction false} NatToStringRoundTrip(n: nat)
    ensures DecimalValue(NatToString(n)) == n
  {
    if n >= 10 {
      var r := NatToString(n);
      assert r[..|r| - 1] == NatToString(n / 10);
      NatToStringRoundTrip(n / 10);
    }
  }

  // ---------------------------------------------------------------- trimming with a known first or last character

  /** Nothing is trimmed off a string that ends in a non-whitespace character. */
  lemma {:induction false} TrimEndKeeps(s: string)
    requires s != [] && !IsWhitespace(s[|s| - 1])
    ensures TrimEnd(s) == s
  {
  }

  /** Nothing is trimmed off a string that starts with a non-whitespace character. */
  lemma {:induction false} TrimStartKeeps(s: string)
    requires s != [] && !IsWhitespace(s[0])
    ensures TrimStart(s) == s
  {
  }

  /** A prefix that starts and ends with non-whitespace survives `trim`. */
  lemma {:induction false} TrimKeepsPrefix(s: string, p: string)
    requires StartsWith(s, p) && p != []
    requires !IsWhitespace(p[0]) && !IsWhitespace(p[|p| - 1])
    ensures StartsWith(Trim(s), p)
  {
    var e := TrimEnd(s);
    TrimEndSplit(s);
    assert e[..|p|] == s[..|p|];
    assert e[0] == p[0];
    TrimStartKeeps(e);
  }

  // ---------------------------------------------------------------- prefix stripping

  /** `str::trim_start_matches(p)`: removes p from the front for as long as it is there. */
  function TrimStartMatches(s: string, p: string): (r: string)
    ensures |r| <= |s|
    ensures p != [] ==> !StartsWith(r, p)
    decreases |s|
  {
    if p != [] && StartsWith(s, p) then TrimStartMatches(s[|p|..], p) else s
  }

  /** What `TrimStartMatches` leaves is a suffix of its argument. */
  lemma {:induction false} TrimStartMatchesSuffix(s: string, p: string)
    ensures TrimStartMatches(s, p) == s[|s| - |TrimStartMatches(s, p)|..]
    decreases |s|
  {
    if p != [] && StartsWith(s, p) {
      TrimStartMatchesSuffix(s[|p|..], p);
    }
  }

  /** `str::trim_end_matches(c)`: removes every trailing c. */
  function TrimEndMatches(s: string, c: char): (r: string)
    ensures |r| <= |s|
    ensures r == [] || r[|r| - 1] != c
  {
    if s != [] && s[|s| - 1] == c then TrimEndMatches(s[..|s| - 1], c) else s
  }

  /** What `TrimEndMatches` leaves is a prefix of its argument, and all it removed is c. */
  lemma {:induction false} TrimEndMatchesPrefix(s: string, c: char)
    ensures var r := TrimEndMatches(s, c);
      r == s[..|r|] && forall i :: |r| <= i < |s| ==> s[i] == c
  {
    if s != [] && s[|s| - 1] == c {
      TrimEndMatchesPrefix(s[..|s| - 1], c);
    }
  }

  // ---------------------------------------------------------------- reversal

  function Reverse<T>(s: seq<T>): (r: seq<T>)
    ensures |r| == |s|
  {
    if s == [] then [] else Reverse(s[1..]) + [s[0]]
  }

  lemma {:induction false} ReverseAppend<T>(a: seq<T>, b: seq<T>)
    ensures Reverse(a + b) == Reverse(b) + Reverse(a)
  {
    if a == [] {
      assert a + b == b;
    } else {
      assert (a + b)[0] == a[0];
      assert (a + b)[1..] == a[1..] + b;
      ReverseAppend(a[1..], b);
    }
  }

  lemma {:induction false} ReverseReverse<T>(s: seq<T>)
    ensures Reverse(Reverse(s)) == s
  {
    if s != [] {
      ReverseAppend(Reverse(s[1..]), [s[0]]);
      assert Reverse([s[0]]) == [s[0]];
      ReverseReverse(s[1..]);
      assert [s[0]] + s[1..] == s;
    }
  }

  // ---------------------------------------------------------------- splitting at a character

  /** The parts laid end to end. */
  function Concat(parts: seq<string>): string {
    if parts == [] then [] else parts[0] + Concat(parts[1..])
  }

  /** `str::split(c)`: the pieces between occurrences of c; there is one more piece than there are c's. */
  function SplitOn(s: string, c: char): (parts: seq<string>)
    ensures parts != []
    ensures forall i :: 0 <= i < |parts| ==> c !in parts[i]
    decreases |s|
  {
    match IndexOf(s, c)
    case None => [s]
    case Some(i) =>
      [s[..i]] + SplitOn(s[i + 1..], c)
  }

  /** There is one more piece than there are occurrences of c. */
  lemma {:induction false} SplitOnCount(s: string, c: char)
    ensures |SplitOn(s, c)| == multiset(s)[c] + 1
    decreases |s|
  {
    match IndexOf(s, c)
    case None =>
    case Some(i) =>
      var a, b := s[..i], s[i + 1..];
      SplitOnCount(b, c);
      assert s == a + [c] + b;
      assert multiset(s) == multiset(a) + multiset([c]) + multiset(b);
      assert c !in a;
  }

  /** Splitting at c and joining with c gives back the string. */
  lemma {:induction false} SplitOnJoin(s: string, c: char)
    ensures Join(SplitOn(s, c), [c]) == s
    decreases |s|
  {
    match IndexOf(s, c)
    case None =>
    case Some(i) =>
      SplitOnJoin(s[i + 1..], c);
      assert s == s[..i] + [c] + s[i + 1..];
  }

  /** A c splits the string into the pieces of what precedes it and the pieces of what follows it. */
  lemma {:induction false} SplitOnAppend(a: string, c: char, b: string)
    ensures SplitOn(a + [c] + b, c) == SplitOn(a, c) + SplitOn(b, c)
    decreases |a|
  {
    if c !in a {
      SplitOnFirst(a, c, b);
    } else {
      var i := IndexOf(a, c).value;
      var a1, a2 := a[..i], a[i + 1..];
      assert a == a1 + [c] + a2;
      SplitOnAppend(a2, c, b);
      SplitOnRegroup(a1, a2, c, b);
    }
  }

  lemma {:induction false} SplitOnRegroup(a1: string, a2: string, c: char, b: string)
    requires c !in a1
    requires SplitOn(a2 + [c] + b, c) == SplitOn(a2, c) + SplitOn(b, c)
    ensures SplitOn(a1 + [c] + a2 + [c] + b, c) == SplitOn(a1 + [c] + a2, c) + SplitOn(b, c)
  {
    var p, x := a1 + [c], a2 + [c] + b;
    Regroup(p, a2, [c], b);
    SplitOnFirst(a1, c, x);
    SplitOnFirst(a1, c, a2);
    AppendAssoc([a1], SplitOn(a2, c), SplitOn(b, c));
  }

  lemma {:induction false} Regroup<T>(p: seq<T>, q: seq<T>, r: seq<T>, t: seq<T>)
    ensures p + q + r + t == p + (q + r + t)
  {
    AppendAssoc(p + q, r, t);
    AppendAssoc(p, q, r + t);
    AppendAssoc(q, r, t);
  }

  lemma {:induction false} AppendAssoc<T>(p: seq<T>, q: seq<T>, r: seq<T>)
    ensures p + (q + r) == (p + q) + r
  {
  }

  /** A non-empty prefix is the shorter prefix and one more element. */
  lemma {:induction false} TakeSnoc<T>(s: seq<T>, i: nat)
    requires 0 < i <= |s|
    ensures s[..i] == s[..i - 1] + [s[i - 1]]
  {
  }

  /** The first piece runs up to the first c. */
  lemma {:induction false} SplitOnFirst(a: string, c: char, b: string)
    requires c !in a
    ensures SplitOn(a + [c] + b, c) == [a] + SplitOn(b, c)
  {
    var s := a + [c] + b;
    IndexOfAfter(a, c, b);
    assert s[..|a|] == a && s[|a| + 1..] == b;
  }

  /** A line that ends with its only '\n'. */
  predicate CompleteLine(l: string) {
    l != [] && l[|l| - 1] == '\n' && '\n' !in l[..|l| - 1]
  }

  /**
   * `str::split_inclusive('\n')`: the lines of s, each keeping its terminating '\n'; only the
   * last may lack one, and an empty string has no lines (see `SplitLinesShape`).
   */
  function SplitLines(s: string): (lines: seq<string>)
    ensures Concat(lines) == s
    decreases |s|
  {
    if s == [] then []
    else
      match IndexOf(s, '\n')
      case None =>
        assert [s][1..] == [];
        [s]
      case Some(i) =>
        var rest := SplitLines(s[i + 1..]);
        assert ([s[..i + 1]] + rest)[1..] == rest;
        assert s == s[..i + 1] + s[i + 1..];
        [s[..i + 1]] + rest
  }

  /** Every line is non-empty and has no '\n' before its end, and every line but the last ends with '\n'. */
  predicate LinesShape(lines: seq<string>) {
    && (forall i :: 0 <= i < |lines| ==> lines[i] != [] && '\n' !in lines[i][..|lines[i]| - 1])
    && (forall i :: 0 <= i < |lines| - 1 ==> CompleteLine(lines[i]))
  }

  lemma {:induction false} SplitLinesShape(s: string)
    ensures LinesShape(SplitLines(s))
    decreases |s|
  {
    if s != [] {
      match IndexOf(s, '\n')
      case None =>
        LastLineShape(s);
      case Some(i) =>
        SplitLinesShape(s[i + 1..]);
        LineThenShape(s, i, SplitLines(s[i + 1..]));
    }
  }

  lemma {:induction false} LastLineShape(s: string)
    requires s != [] && '\n' !in s
    ensures LinesShape([s])
  {
    assert forall k :: 0 <= k < |s| - 1 ==> s[..|s| - 1][k] == s[k];
  }

  lemma {:induction false} LineThenShape(s: string, i: nat, rest: seq<string>)
    requires i < |s| && s[i] == '\n' && '\n' !in s[..i]
    requires LinesShape(rest)
    ensures LinesShape([s[..i + 1]] + rest)
  {
    var lines := [s[..i + 1]] + rest;
    assert s[..i + 1][..i] == s[..i];
    assert forall j :: 1 <= j < |lines| ==> lines[j] == rest[j - 1];
  }

  /** A complete first line is split off on its own. */
  lemma {:induction false} SplitLinesCons(line: string, rest: string)
    requires CompleteLine(line)
    ensures SplitLines(line + rest) == [line] + SplitLines(rest)
  {
    var s := line + rest;
    assert line == line[..|line| - 1] + ['\n'];
    assert s == line[..|line| - 1] + ['\n'] + rest;
    IndexOfAfter(line[..|line| - 1], '\n', rest);
    assert s[..|line|] == line && s[|line|..] == rest;
  }
}
