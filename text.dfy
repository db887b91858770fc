/**
 * The JavaScript string operations the route handlers and the mailer rely on:
 * truthiness, `trim`, case mapping, `includes`, `replace` with a string
 * pattern, and counting a character.
 */
module Text {
  import opened Wrappers

  /** JavaScript truthiness of an optional string: present and not empty. */
  predicate Truthy(s: Option<string>) {
    s.Some? && s.value != ""
  }

  /** `a || b` on optional strings. */
  function OrElse(a: Option<string>, b: Option<string>): (r: Option<string>)
    ensures Truthy(a) ==> r == a
    ensures !Truthy(a) ==> r == b
  {
    if Truthy(a) then a else b
  }

  // ---------------------------------------------------------------------------
  // trim

  /** A character `String.prototype.trim` removes: ECMAScript white space and line terminators. */
  predicate IsTrimmable(c: char) {
    c == '\t' || c == '\n' || c == '\U{B}' || c == '\U{C}' || c == '\r' || c == ' '
    || c == '\U{A0}' || c == '\U{1680}' || ('\U{2000}' <= c <= '\U{200A}')
    || c == '\U{2028}' || c == '\U{2029}' || c == '\U{202F}' || c == '\U{205F}'
    || c == '\U{3000}' || c == '\U{FEFF}'
  }

  function TrimStart(s: string): (r: string)
    ensures |r| <= |s| && r == s[|s| - |r|..]
    ensures r != [] ==> !IsTrimmable(r[0])
  {
    if s != [] && IsTrimmable(s[0]) then TrimStart(s[1..]) else s
  }

  function TrimEnd(s: string): (r: string)
    ensures |r| <= |s| && r == s[..|r|]
    ensures r != [] ==> !IsTrimmable(r[|r| - 1])
  {
    if s != [] && IsTrimmable(s[|s| - 1]) then TrimEnd(s[..|s| - 1]) else s
  }

  /** `s.trim()` */
  function Trim(s: string): string {
    TrimEnd(TrimStart(s))
  }

  /** Every character of `s` is one that `trim` removes. */
  predicate AllTrimmable(s: string) {
    forall i :: 0 <= i < |s| ==> IsTrimmable(s[i])
  }

  lemma {:induction false} TrimStartEmpty(s: string)
    ensures TrimStart(s) == [] <==> AllTrimmable(s)
  {
    if s != [] && IsTrimmable(s[0]) {
      TrimStartEmpty(s[1..]);
      assert AllTrimmable(s[1..]) ==> AllTrimmable(s) by {
        if AllTrimmable(s[1..]) {
          forall i | 0 <= i < |s| ensures IsTrimmable(s[i]) {
            if i > 0 { assert s[i] == s[1..][i - 1]; }
          }
        }
      }
    }
  }

  /** `s.trim() === ''` holds exactly when `s` is made only of white space. */
  lemma TrimEmptyIff(s: string)
    ensures Trim(s) == [] <==> AllTrimmable(s)
  {
    TrimStartEmpty(s);
    var t := TrimStart(s);
    if t != [] {
      assert !IsTrimmable(t[0]);
      assert TrimEnd(t) != [] by {
        if TrimEnd(t) == [] { TrimEndKeepsNonTrimmable(t); }
      }
    }
  }

  lemma {:induction false} TrimEndKeepsNonTrimmable(s: string)
    requires s != [] && !IsTrimmable(s[0])
    ensures TrimEnd(s) != []
  {
    if IsTrimmable(s[|s| - 1]) {
      TrimEndKeepsNonTrimmable(s[..|s| - 1]);
    }
  }

  // ---------------------------------------------------------------------------
  // Case mapping (ASCII letters only)

  function LowerChar(c: char): char {
    if 'A' <= c <= 'Z' then (c as int + 32) as char else c
  }

  function UpperChar(c: char): char {
    if 'a' <= c <= 'z' then (c as int - 32) as char else c
  }

  /** `s.toLowerCase()`, on ASCII letters. */
  function ToLower(s: string): (r: string)
    ensures |r| == |s|
    ensures forall i :: 0 <= i < |s| ==> r[i] == LowerChar(s[i])
  {
    seq(|s|, i requires 0 <= i < |s| => LowerChar(s[i]))
  }

  /** `s.toUpperCase()`, on ASCII letters. */
  function ToUpper(s: string): (r: string)
    ensures |r| == |s|
    ensures forall i :: 0 <= i < |s| ==> r[i] == UpperChar(s[i])
  {
    seq(|s|, i requires 0 <= i < |s| => UpperChar(s[i]))
  }

  // ---------------------------------------------------------------------------
  // Substrings

  /** `p` occurs in `s` starting at index `i`. */
  predicate OccursAt(s: string, p: string, i: int) {
    0 <= i && i + |p| <= |s| && s[i..i + |p|] == p
  }

  /** `s.includes(p)`: the empty pattern is in every text, a longer one in none, and every text holds itself. */
  predicate Contains(s: string, p: string): (b: bool)
    ensures p == [] ==> b
    ensures |p| > |s| ==> !b
    ensures s == p ==> b
  {
    assert p == [] ==> OccursAt(s, p, 0);
    assert s == p ==> OccursAt(s, p, 0);
    exists i | 0 <= i <= |s| - |p| :: OccursAt(s, p, i)
  }

  /** The first index at or after `from` where `p` occurs in `s`. */
  function FindFrom(s: string, p: string, from: nat): (r: Option<nat>)
    decreases |s| - from
    ensures r.Some? ==> from <= r.value && OccursAt(s, p, r.value)
    ensures r.Some? ==> forall j :: from <= j < r.value ==> !OccursAt(s, p, j)
    ensures r.None? ==> forall j :: from <= j ==> !OccursAt(s, p, j)
  {
    if from + |p| > |s| then None
    else if s[from..from + |p|] == p then Some(from)
    else FindFrom(s, p, from + 1)
  }

  /** `s.indexOf(p)`, as an option. */
  function FirstOccurrence(s: string, p: string): (r: Option<nat>)
    ensures r.Some? ==> OccursAt(s, p, r.value)
    ensures r.Some? ==> forall j :: 0 <= j < r.value ==> !OccursAt(s, p, j)
    ensures r.None? <==> !Contains(s, p)
  {
    FindFrom(s, p, 0)
  }

  /** `s.replace(p, v)` with a string pattern: only the first occurrence is replaced. */
  function ReplaceFirst(s: string, p: string, v: string): (r: string)
    ensures !Contains(s, p) ==> r == s
    ensures Contains(s, p) ==> |r| == |s| - |p| + |v|
  {
    match FirstOccurrence(s, p)
    case None => s
    case Some(i) => s[..i] + v + s[i + |p|..]
  }

  /** `ReplaceFirst` when the pattern occurs: the text before it, the replacement, the text after it. */
  lemma ReplaceFirstSplit(s: string, p: string, v: string, i: nat)
    requires FirstOccurrence(s, p) == Some(i)
    ensures i + |p| <= |s| && |s[..i]| == i
    ensures ReplaceFirst(s, p, v) == s[..i] + v + s[i + |p|..]
  {
  }

  /**
   * `ReplaceFirst` puts `v` where the first occurrence began and keeps the text
   * before it; without an occurrence it changes nothing.
   */
  lemma ReplaceFirstPlaces(s: string, p: string, v: string)
    ensures FirstOccurrence(s, p).None? ==> ReplaceFirst(s, p, v) == s
    ensures FirstOccurrence(s, p).Some? ==>
      var i := FirstOccurrence(s, p).value;
      && OccursAt(ReplaceFirst(s, p, v), v, i)
      && ReplaceFirst(s, p, v)[..i] == s[..i]
      && |ReplaceFirst(s, p, v)| == |s| - |p| + |v|
  {
    if FirstOccurrence(s, p).Some? {
      var i := FirstOccurrence(s, p).value;
      ReplaceFirstSplit(s, p, v, i);
      PiecesOf(s[..i], v, s[i + |p|..]);
    }
  }

  /** The first two pieces of `pre + v + tail` are where they were put. */
  lemma PiecesOf(pre: string, v: string, tail: string)
    ensures (pre + v + tail)[..|pre|] == pre
    ensures (pre + v + tail)[|pre|..|pre| + |v|] == v
  {
  }

  /** An occurrence of `p` lying wholly after the first one, at `i`, is still there after `ReplaceFirst`. */
  lemma LaterOccurrenceRemains(s: string, p: string, v: string, i: nat, j: int)
    requires FirstOccurrence(s, p) == Some(i)
    requires OccursAt(s, p, j) && j >= i + |p|
    ensures OccursAt(ReplaceFirst(s, p, v), p, j - |p| + |v|)
  {
    ReplaceFirstSplit(s, p, v, i);
    OccursInSuffix(s, p, i + |p|, j);
    OccursAfter(s[..i], v, s[i + |p|..], p, j - i - |p|, j - |p| + |v|);
  }

  /** An occurrence at or after `m` is an occurrence in `s[m..]`. */
  lemma OccursInSuffix(s: string, p: string, m: nat, j: int)
    requires m <= j && OccursAt(s, p, j)
    ensures OccursAt(s[m..], p, j - m)
  {
    assert s[m..][j - m..j - m + |p|] == s[j..j + |p|];
  }

  /** An occurrence in `tail` is an occurrence in `pre + v + tail`, shifted by their lengths. */
  lemma OccursAfter(pre: string, v: string, tail: string, p: string, off: nat, k: int)
    requires OccursAt(tail, p, off) && k == |pre| + |v| + off
    ensures OccursAt(pre + v + tail, p, k)
  {
    assert (pre + v + tail)[k..k + |p|] == tail[off..off + |p|];
  }

  // ---------------------------------------------------------------------------
  // Counting a character

  function CountChar(s: string, c: char): nat {
    if s == [] then 0 else (if s[0] == c then 1 else 0) + CountChar(s[1..], c)
  }

  /** Counting distributes over concatenation. */
  lemma {:induction false} CountCharAppend(a: string, b: string, c: char)
    ensures CountChar(a + b, c) == CountChar(a, c) + CountChar(b, c)
  {
    if a != [] {
      assert (a + b)[1..] == a[1..] + b;
      CountCharAppend(a[1..], b, c);
    } else {
      assert a + b == b;
    }
  }

  /** A string without the character counts zero of it. */
  lemma {:induction false} CountCharAbsent(s: string, c: char)
    requires c !in s
    ensures CountChar(s, c) == 0
  {
    if s != [] {
      assert c !in s[1..];
      CountCharAbsent(s[1..], c);
    }
  }

  /** One occurrence of `c` between two pieces free of it. */
  lemma CountCharOne(a: string, b: string, c: char)
    requires c !in a && c !in b
    ensures CountChar(a + [c] + b, c) == 1
  {
    CountCharAbsent(a, c);
    CountCharAbsent(b, c);
    CountCharAppend(a, [c], c);
    CountCharAppend(a + [c], b, c);
  }

  /** Two occurrences of `c` among three pieces free of it. */
  lemma CountCharTwo(a: string, b: string, d: string, c: char)
    requires c !in a && c !in b && c !in d
    ensures CountChar(a + [c] + b + [c] + d, c) == 2
  {
    CountCharOne(a, b, c);
    CountCharAbsent(d, c);
    CountCharAppend(a + [c] + b, [c], c);
    CountCharAppend(a + [c] + b + [c], d, c);
  }
}
