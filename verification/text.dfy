/** The part of Go's `strings`, `unicode` and `unicode/utf8` packages the
    model relies on, over Dafny strings (sequences of Unicode scalar values). */
module Text {
  import opened Wrappers

  /** Go's `unicode.IsSpace`: the ASCII white space, NEL, NBSP and the
      Unicode `White_Space` code points above Latin-1. */
  predicate IsSpace(c: char) {
    var n := c as int;
    (9 <= n <= 13) || n == 32 || n == 0x85 || n == 0xA0 || n == 0x1680
    || (0x2000 <= n <= 0x200A) || n == 0x2028 || n == 0x2029 || n == 0x202F
    || n == 0x205F || n == 0x3000
  }

  function TrimLeft(s: string): (r: string)
    ensures |r| <= |s| && r == s[|s| - |r|..]
    ensures forall k :: 0 <= k < |s| - |r| ==> IsSpace(s[k])
    ensures |r| > 0 ==> !IsSpace(r[0])
  {
    if |s| > 0 && IsSpace(s[0]) then
      var r := TrimLeft(s[1..]);
      assert s[1..][|s| - 1 - |r|..] == s[|s| - |r|..];
      r
    else s
  }

  function TrimRight(s: string): (r: string)
    ensures |r| <= |s| && r == s[..|r|]
    ensures forall k :: |r| <= k < |s| ==> IsSpace(s[k])
    ensures |r| > 0 ==> !IsSpace(r[|r| - 1])
  {
    if |s| > 0 && IsSpace(s[|s| - 1]) then TrimRight(s[..|s| - 1]) else s
  }

  /** `r` is the slice of `s` starting at `i`, and everything of `s` outside
      that slice is white space. */
  predicate TrimmedAt(s: string, r: string, i: int) {
    0 <= i <= |s| - |r| && r == s[i..i + |r|]
    && (forall k :: 0 <= k < i ==> IsSpace(s[k]))
    && (forall k :: i + |r| <= k < |s| ==> IsSpace(s[k]))
  }

  /** Go's `strings.TrimSpace`: the slice of `s` left after removing leading
      and trailing white space. */
  function TrimSpace(s: string): (r: string)
    ensures |r| <= |s|
    ensures exists i :: TrimmedAt(s, r, i)
    ensures |r| > 0 ==> !IsSpace(r[0]) && !IsSpace(r[|r| - 1])
  {
    var l := TrimLeft(s);
    var r := TrimRight(l);
    var i := |s| - |l|;
    assert TrimmedAt(s, r, i);
    r
  }

  /** Trimming keeps a prefix that starts and ends with non-space. */
  lemma TrimKeepsPrefix(s: string, p: string)
    requires 0 < |p| <= |s| && s[..|p|] == p
    requires !IsSpace(p[0]) && !IsSpace(p[|p| - 1])
    ensures |p| <= |TrimSpace(s)| && TrimSpace(s)[..|p|] == p
  {
    var r := TrimSpace(s);
    var i :| TrimmedAt(s, r, i);
    assert s[0] == p[0] && s[|p| - 1] == p[|p| - 1];
    assert i == 0;
    assert r == s[..|r|];
  }

  /** Trimming twice trims nothing more. */
  lemma {:induction false} TrimSpaceIdempotent(s: string)
    ensures TrimSpace(TrimSpace(s)) == TrimSpace(s)
  {
    var t := TrimSpace(s);
    if |t| > 0 {
      assert TrimLeft(t) == t;
      assert TrimRight(t) == t;
    }
  }

  predicate HasPrefix(s: string, p: string) {
    |p| <= |s| && s[..|p|] == p
  }

  /** `p` occurs in `s` at index `i`. */
  predicate OccursAt(s: string, p: string, i: int) {
    0 <= i && i + |p| <= |s| && s[i..i + |p|] == p
  }

  /** The least index, at or after `from`, where `p` occurs in `s`. */
  function IndexFrom(s: string, p: string, from: nat): (r: Option<nat>)
    requires from <= |s|
    ensures r.Some? ==> from <= r.value && OccursAt(s, p, r.value)
                        && forall k :: from <= k < r.value ==> !OccursAt(s, p, k)
    ensures r.None? ==> forall k :: from <= k ==> !OccursAt(s, p, k)
    decreases |s| - from
  {
    if from + |p| > |s| then None
    else if s[from..from + |p|] == p then Some(from)
    else IndexFrom(s, p, from + 1)
  }

  /** Go's `strings.Index`, with `None` for -1. */
  function IndexOf(s: string, p: string): (r: Option<nat>)
    ensures r.Some? ==> OccursAt(s, p, r.value) && forall k :: 0 <= k < r.value ==> !OccursAt(s, p, k)
    ensures r.None? ==> forall k :: !OccursAt(s, p, k)
  {
    IndexFrom(s, p, 0)
  }

  /** Go's `strings.Contains`. */
  predicate Contains(s: string, p: string)
  {
    IndexOf(s, p).Some?
  }

  lemma ContainsIff(s: string, p: string)
    ensures Contains(s, p) <==> exists i :: OccursAt(s, p, i)
  {
  }

  /** Go's `strings.Replace(s, target, replacement, 1)` for a non-empty `target`. */
  function ReplaceFirst(s: string, target: string, replacement: string): (r: string)
    ensures (forall k :: !OccursAt(s, target, k)) ==> r == s
    ensures forall i :: OccursAt(s, target, i) && (forall k :: 0 <= k < i ==> !OccursAt(s, target, k))
                        ==> r == s[..i] + replacement + s[i + |target|..]
    ensures |r| == |s| || |r| == |s| - |target| + |replacement|
  {
    match IndexOf(s, target)
    case None => s
    case Some(i) => s[..i] + replacement + s[i + |target|..]
  }

  /** Go's `unicode.ToLower` on the code points whose lower case matters
      when matching ASCII text: `A`-`Z`, and the two non-ASCII letters
      (DOTTED CAPITAL I and KELVIN SIGN) whose lower case is ASCII. */
  function LowerChar(c: char): char {
    if 'A' <= c <= 'Z' then (c as int + 32) as char
    else if c == '\U{0130}' then 'i'
    else if c == '\U{212A}' then 'k'
    else c
  }

  /** The part of Go's `strings.ToLower` that can make or break an ASCII
      marker, applied position by position (see `LowerChar`). */
  function Lower(s: string): (r: string)
    ensures |r| == |s|
  {
    seq(|s|, i requires 0 <= i < |s| => LowerChar(s[i]))
  }

  lemma LowerIdempotent(s: string)
    ensures Lower(Lower(s)) == Lower(s)
  {
  }

  /** Joins `parts` with `sep` between consecutive parts (Go's `strings.Join`). */
  function Join(parts: seq<string>, sep: char): string
  {
    if |parts| == 0 then ""
    else if |parts| == 1 then parts[0]
    else parts[0] + [sep] + Join(parts[1..], sep)
  }

  /** Go's `strings.Split(s, string(sep))`: the pieces between separators;
      there is always one more piece than there are separators. */
  function Split(s: string, sep: char): (parts: seq<string>)
    ensures |parts| == multiset(s)[sep] + 1
    ensures forall i :: 0 <= i < |parts| ==> sep !in parts[i]
    ensures Join(parts, sep) == s
    decreases |s|
  {
    match IndexOf(s, [sep])
    case None =>
      NoCharBefore(s, sep, |s|);
      assert s[..|s|] == s;
      [s]
    case Some(i) =>
      assert s[i] == sep by { assert s[i..i + 1] == [sep]; }
      var head := s[..i];
      NoCharBefore(s, sep, i);
      var rest := Split(s[i + 1..], sep);
      assert s == head + [sep] + s[i + 1..];
      assert multiset(s) == multiset(head) + multiset([sep]) + multiset(s[i + 1..]);
      var parts := [head] + rest;
      assert parts[1..] == rest;
      parts
  }

  /** A one-character pattern that occurs nowhere before `n` leaves that
      character out of the first `n` characters. */
  lemma NoCharBefore(s: string, c: char, n: nat)
    requires n <= |s|
    requires forall k :: 0 <= k < n ==> !OccursAt(s, [c], k)
    ensures c !in s[..n]
  {
    forall k | 0 <= k < n ensures s[k] != c {
      assert !OccursAt(s, [c], k);
      assert s[k..k + 1] == [s[k]];
    }
  }

  /** Splitting a join of separator-free parts gives the parts back. */
  lemma {:induction false} SplitJoin(parts: seq<string>, sep: char)
    requires |parts| >= 1
    requires forall i :: 0 <= i < |parts| ==> sep !in parts[i]
    ensures Split(Join(parts, sep), sep) == parts
    decreases |parts|
  {
    var s := Join(parts, sep);
    if |parts| == 1 {
      assert s == parts[0];
      forall k ensures !OccursAt(s, [sep], k) {
        if 0 <= k < |s| {
          assert s[k..k + 1] == [s[k]];
        }
      }
    } else {
      var h := parts[0];
      var t := Join(parts[1..], sep);
      assert s == h + [sep] + t;
      assert OccursAt(s, [sep], |h|) by { assert s[|h|..|h| + 1] == [sep]; }
      forall k | 0 <= k < |h| ensures !OccursAt(s, [sep], k) {
        assert s[k..k + 1] == [h[k]];
      }
      assert IndexOf(s, [sep]) == Some(|h|);
      assert s[..|h|] == h;
      assert s[|h| + 1..] == t;
      SplitJoin(parts[1..], sep);
    }
  }

  /** The first non-empty candidate, or "" when all are empty: the shape of
      Go's `x := a; if x == "" { x = b }; ...` fallback chains. */
  function FirstNonEmpty(cands: seq<string>): (r: string)
    ensures r == "" <==> forall i :: 0 <= i < |cands| ==> cands[i] == ""
    ensures r != "" ==> exists i :: 0 <= i < |cands| && cands[i] == r
                                    && forall j :: 0 <= j < i ==> cands[j] == ""
  {
    if |cands| == 0 then ""
    else if cands[0] != "" then cands[0]
    else
      var r := FirstNonEmpty(cands[1..]);
      assert r != "" ==> exists i :: 0 <= i < |cands| && cands[i] == r
                                     && forall j :: 0 <= j < i ==> cands[j] == "" by {
        if r != "" {
          var i :| 0 <= i < |cands[1..]| && cands[1..][i] == r
                   && forall j :: 0 <= j < i ==> cands[1..][j] == "";
          assert cands[i + 1] == r;
        }
      }
      r
  }

  /** The candidate FirstNonEmpty picks is the first non-empty one. */
  lemma FirstNonEmptyAt(cands: seq<string>, i: int)
    requires 0 <= i < |cands| && cands[i] != ""
    requires forall j :: 0 <= j < i ==> cands[j] == ""
    ensures FirstNonEmpty(cands) == cands[i]
  {
    var r := FirstNonEmpty(cands);
    var k :| 0 <= k < |cands| && cands[k] == r && forall j :: 0 <= j < k ==> cands[j] == "";
    assert k == i;
  }

  type byte = x: int | 0 <= x < 256

  predicate IsAscii(s: string) {
    forall i :: 0 <= i < |s| ==> s[i] as int < 0x80
  }

  /** The UTF-8 encoding of one scalar value. */
  function Utf8Char(c: char): (bs: seq<byte>)
    ensures 1 <= |bs| <= 4
    ensures |bs| == 1 <==> c as int < 0x80
    ensures c as int < 0x80 ==> bs == [c as int]
  {
    var n := c as int;
    if n < 0x80 then [n]
    else if n < 0x800 then [0xC0 + n / 0x40, 0x80 + n % 0x40]
    else if n < 0x10000 then [0xE0 + n / 0x1000, 0x80 + (n / 0x40) % 0x40, 0x80 + n % 0x40]
    else [0xF0 + n / 0x40000, 0x80 + (n / 0x1000) % 0x40, 0x80 + (n / 0x40) % 0x40, 0x80 + n % 0x40]
  }

  /** The bytes of a Go string holding `s`; Go's `len` counts these. */
  function Utf8(s: string): (bs: seq<byte>)
    ensures |bs| >= |s|
    ensures IsAscii(s) ==> |bs| == |s| && forall i :: 0 <= i < |s| ==> bs[i] == s[i] as int
  {
    if |s| == 0 then []
    else
      var bs := Utf8Char(s[0]) + Utf8(s[1..]);
      bs
  }

  function DigitsOf(n: nat): string
  {
    if n < 10 then [('0' as int + n) as char]
    else DigitsOf(n / 10) + [('0' as int + n % 10) as char]
  }

  /** Go's `%d` rendering of an integer. */
  function Decimal(n: int): string
  {
    if n < 0 then "-" + DigitsOf(-n) else DigitsOf(n)
  }
}
