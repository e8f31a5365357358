/** UTF-8 text as byte sequences, following the grammar of section 4 of RFC 3629:
    character decoding, rune counting, and the two string operations that stream
    recovery builds on (dropping leading runes, keeping a capped suffix). */
module Utf8 {

  type Byte = b: int | 0 <= b < 256

  predicate Continuation(b: Byte) { 0x80 <= b <= 0xBF }

  /** Length of the well-formed character at the start of `s`; 0 if there is none. */
  function CharLen(s: seq<Byte>): (n: nat)
    ensures n <= |s| && n <= 4
    ensures n > 0 ==> !Continuation(s[0])
    ensures forall i :: 1 <= i < n ==> Continuation(s[i])
  {
    if |s| == 0 then 0
    else if s[0] <= 0x7F then 1
    else if |s| < 2 then 0
    else if 0xC2 <= s[0] <= 0xDF && Continuation(s[1]) then 2
    else if |s| < 3 || !Continuation(s[2]) then 0
    else if s[0] == 0xE0 && 0xA0 <= s[1] <= 0xBF then 3
    else if (0xE1 <= s[0] <= 0xEC || 0xEE <= s[0] <= 0xEF) && Continuation(s[1]) then 3
    else if s[0] == 0xED && 0x80 <= s[1] <= 0x9F then 3
    else if |s| < 4 || !Continuation(s[3]) then 0
    else if s[0] == 0xF0 && 0x90 <= s[1] <= 0xBF then 4
    else if 0xF1 <= s[0] <= 0xF3 && Continuation(s[1]) then 4
    else if s[0] == 0xF4 && 0x80 <= s[1] <= 0x8F then 4
    else 0
  }

  predicate Valid(s: seq<Byte>) {
    s == [] || (CharLen(s) > 0 && Valid(s[CharLen(s)..]))
  }

  type Text = s: seq<Byte> | Valid(s)

  /** Number of bytes one iteration of a Go `range` over a string consumes:
      a whole character, or a single byte where the input is malformed. */
  function RuneLen(s: seq<Byte>): (n: nat)
    requires s != []
    ensures 1 <= n <= |s|
  {
    if CharLen(s) > 0 then CharLen(s) else 1
  }

  function RuneCount(s: seq<Byte>): nat {
    if s == [] then 0 else 1 + RuneCount(s[RuneLen(s)..])
  }

  // ---------------------------------------------------------------- concatenation

  lemma CharLenExtends(a: seq<Byte>, b: seq<Byte>)
    requires CharLen(a) > 0
    ensures CharLen(a + b) == CharLen(a)
  {
  }

  lemma {:induction false} ConcatValid(a: seq<Byte>, b: seq<Byte>)
    requires Valid(a)
    ensures Valid(a + b) <==> Valid(b)
    ensures RuneCount(a + b) == RuneCount(a) + RuneCount(b)
  {
    if a == [] {
      assert a + b == b;
    } else {
      var n := CharLen(a);
      CharLenExtends(a, b);
      assert (a + b)[n..] == a[n..] + b;
      ConcatValid(a[n..], b);
    }
  }

  predicate Boundary(w: seq<Byte>, i: nat)
    requires i <= |w|
  {
    i == |w| || !Continuation(w[i])
  }

  /** A valid text is self-synchronising: its valid suffixes are exactly those that
      do not start with a continuation byte. */
  lemma {:induction false} SuffixValid(w: seq<Byte>, i: nat)
    requires Valid(w) && i <= |w|
    ensures Valid(w[i..]) <==> Boundary(w, i)
  {
    if 0 < i < CharLen(w) {
      assert w[i..][0] == w[i];
    } else if i > 0 {
      var n := CharLen(w);
      SuffixValid(w[n..], i - n);
      assert w[n..][i - n..] == w[i..];
    } else {
      assert w[0..] == w;
    }
  }

  lemma FirstChar(w: seq<Byte>)
    requires CharLen(w) > 0
    ensures Valid(w[..CharLen(w)]) && RuneCount(w[..CharLen(w)]) == 1
  {
    var c := w[..CharLen(w)];
    assert CharLen(c) == |c|;
    assert c[|c|..] == [];
  }

  /** Two valid prefixes of one text are ordered by their rune counts. */
  lemma PrefixByRunes(a: seq<Byte>, b: seq<Byte>, t: seq<Byte>)
    requires Valid(a) && Valid(b) && a <= t && b <= t
    ensures RuneCount(a) <= RuneCount(b) <==> a <= b
    ensures RuneCount(a) == RuneCount(b) <==> a == b
  {
    if |a| <= |b| {
      assert b == a + b[|a|..];
      ConcatValid(a, b[|a|..]);
      assert RuneCount(b[|a|..]) == 0 <==> b[|a|..] == [];
    } else {
      assert a == b + a[|b|..];
      ConcatValid(b, a[|b|..]);
      assert RuneCount(a[|b|..]) == 0 <==> a[|b|..] == [];
    }
  }

  // ---------------------------------------------------------------- trimLeadingRunes

  /** `value` splits at `i` into two valid parts, the first of `runes` runes. */
  ghost predicate SplitsAt(value: seq<Byte>, i: nat, runes: nat) {
    i <= |value| && Valid(value[..i]) && Valid(value[i..]) && RuneCount(value[..i]) == runes
  }

  /** How many bytes the first `count` runes take; a malformed byte counts as a rune. */
  function Width(value: seq<Byte>, count: nat): (n: nat)
    ensures n <= |value|
    decreases count
  {
    if count == 0 || value == [] then 0 else RuneLen(value) + Width(value[RuneLen(value)..], count - 1)
  }

  lemma {:induction false} WidthStep(value: seq<Byte>, count: nat, i: nat)
    requires i == Width(value, count) < |value|
    ensures Width(value, count + 1) == i + RuneLen(value[i..])
    decreases count
  {
    if count == 0 {
      assert value[0..] == value;
    } else {
      var n := RuneLen(value);
      WidthStep(value[n..], count - 1, i - n);
      assert value[n..][i - n..] == value[i..];
    }
  }

  /** The first `count` runes are the whole text exactly if it has no more. */
  lemma {:induction false} WidthEnds(value: seq<Byte>, count: nat)
    ensures Width(value, count) == |value| <==> RuneCount(value) <= count
    decreases count
  {
    if count > 0 && value != [] {
      WidthEnds(value[RuneLen(value)..], count - 1);
    }
  }

  lemma {:induction false} WidthOfConcat(a: seq<Byte>, b: seq<Byte>)
    requires Valid(a)
    ensures Width(a + b, RuneCount(a)) == |a|
  {
    if a != [] {
      var n := CharLen(a);
      CharLenExtends(a, b);
      assert (a + b)[n..] == a[n..] + b;
      WidthOfConcat(a[n..], b);
    }
  }

  lemma AdvanceOneChar(v: seq<Byte>, i: nat, seen: nat)
    requires i < |v| && SplitsAt(v, i, seen)
    ensures SplitsAt(v, i + RuneLen(v[i..]), seen + 1)
  {
    var n := CharLen(v[i..]);
    assert v[i..][n..] == v[i + n..];
    assert v[..i + n] == v[..i] + v[i..][..n];
    FirstChar(v[i..]);
    ConcatValid(v[..i], v[i..][..n]);
  }

  lemma {:induction false} SplitAfter(value: seq<Byte>, count: nat) returns (i: nat)
    requires Valid(value) && count <= RuneCount(value)
    ensures SplitsAt(value, i, count)
  {
    if count == 0 {
      assert value[..0] == [] && value[0..] == value;
      return 0;
    }
    i := SplitAfter(value, count - 1);
    assert i < |value| by {
      assert value[..|value|] == value;
    }
    AdvanceOneChar(value, i, count - 1);
    i := i + RuneLen(value[i..]);
  }

  lemma SplitIsWidth(value: seq<Byte>, i: nat, runes: nat)
    requires SplitsAt(value, i, runes)
    ensures Width(value, runes) == i
  {
    var a, b := value[..i], value[i..];
    WidthOfConcat(a, b);
    assert a + b == value;
  }

  lemma WholeSplits(value: seq<Byte>)
    requires Valid(value)
    ensures SplitsAt(value, |value|, RuneCount(value))
  {
    assert value[..|value|] == value && value[|value|..] == [];
  }

  /** In a valid text the first runes end between two characters. */
  lemma WidthSplits(value: seq<Byte>, count: nat)
    requires Valid(value)
    ensures SplitsAt(value, Width(value, count), if RuneCount(value) <= count then RuneCount(value) else count)
  {
    if RuneCount(value) <= count {
      WidthEnds(value, count);
      WholeSplits(value);
    } else {
      var i := SplitAfter(value, count);
      SplitIsWidth(value, i, count);
    }
  }

  /** Drops the first `count` runes; also returns how many runes are still to be dropped. */
  method TrimLeadingRunes(value: seq<Byte>, count: int) returns (rest: seq<Byte>, remaining: int)
    ensures count <= 0 ==> rest == value && remaining == count
    ensures count > 0 ==>
      && rest == value[Width(value, count)..]
      && remaining == (if RuneCount(value) <= count then count - RuneCount(value) else 0)
      && (rest == [] <==> RuneCount(value) <= count)
  {
    if count <= 0 || value == [] {
      return value, count;
    }
    var seen, i := 0, 0;
    WidthEnds(value, count);
    while i < |value|
      invariant 0 <= seen <= count && i == Width(value, seen) && seen <= RuneCount(value)
    {
      WidthEnds(value, seen);
      if seen == count {
        return value[i..], 0;
      }
      WidthStep(value, seen, i);
      seen := seen + 1;
      i := i + RuneLen(value[i..]);
    }
    WidthEnds(value, seen);
    return [], count - seen;
  }

  // ---------------------------------------------------------------- the capped buffer

  /** First position at or after `i` that does not hold a continuation byte. */
  function NextBoundary(w: seq<Byte>, i: nat): (j: nat)
    requires i <= |w|
    ensures i <= j <= |w| && Boundary(w, j)
    ensures forall k :: i <= k < j ==> !Boundary(w, k)
    decreases |w| - i
  {
    if Boundary(w, i) then i else NextBoundary(w, i + 1)
  }

  /** The longest suffix of `w` that starts on a character boundary and fits in `maxBytes`;
      a cap of zero or less means no cap. */
  function CappedSuffix(w: seq<Byte>, maxBytes: int): seq<Byte>
  {
    if maxBytes <= 0 || |w| <= maxBytes then w else w[NextBoundary(w, |w| - maxBytes)..]
  }

  predicate ValidFrom(w: seq<Byte>, i: nat) {
    i <= |w| && Valid(w[i..])
  }

  /** `value` is the longest suffix of `full` that is valid and fits in `cap` bytes. */
  ghost predicate LongestValid(full: seq<Byte>, cap: nat, value: seq<Byte>) {
    && |value| <= cap <= |full| && value == full[|full| - |value|..] && Valid(value)
    && forall i: nat :: |full| - cap <= i < |full| - |value| ==> !ValidFrom(full, i)
  }

  /** CappedSuffix is the whole text if it fits, else the longest valid suffix that does; the cap costs at most three
      bytes. */
  lemma CappedSuffixIsLongest(w: Text, maxBytes: int)
    requires maxBytes > 0
    ensures var c := CappedSuffix(w, maxBytes);
      if |w| <= maxBytes then c == w else LongestValid(w, maxBytes, c) && |c| > maxBytes - 4
  {
    if |w| > maxBytes {
      SuffixValid(w, NextBoundary(w, |w| - maxBytes));
      NearBoundary(w, |w| - maxBytes);
      forall i: nat | |w| - maxBytes <= i < NextBoundary(w, |w| - maxBytes)
        ensures !ValidFrom(w, i)
      {
        SuffixValid(w, i);
      }
    }
  }

  lemma {:induction false} NearBoundary(w: seq<Byte>, i: nat)
    requires Valid(w) && i <= |w|
    ensures NextBoundary(w, i) < i + 4
  {
    var n := CharLen(w);
    if i >= n && n > 0 {
      NearBoundary(w[n..], i - n);
      assert Boundary(w, n + NextBoundary(w[n..], i - n));
    } else if i > 0 {
      SuffixValid(w, n);
    }
  }

  lemma CappedSuffixValid(w: seq<Byte>, maxBytes: int)
    requires Valid(w)
    ensures Valid(CappedSuffix(w, maxBytes))
  {
    if maxBytes > 0 {
      CappedSuffixIsLongest(w, maxBytes);
    }
  }

  lemma BoundaryInTail(whole: seq<Byte>, d: nat, from: nat)
    requires d <= from <= |whole|
    ensures NextBoundary(whole, from) == d + NextBoundary(whole[d..], from - d)
  {
    var j, i := NextBoundary(whole, from), NextBoundary(whole[d..], from - d);
    assert Boundary(whole, d + i) && Boundary(whole[d..], j - d);
  }

  /** Capping the end of a text from `d` on is capping the text, if the cap cuts after `d`. */
  lemma CapInTail(whole: seq<Byte>, d: nat, maxBytes: nat)
    requires 0 < maxBytes && d + maxBytes < |whole|
    ensures CappedSuffix(whole[d..], maxBytes) == CappedSuffix(whole, maxBytes)
  {
    var j := NextBoundary(whole, |whole| - maxBytes);
    BoundaryInTail(whole, d, |whole| - maxBytes);
    assert whole[d..][j - d..] == whole[j..];
  }

  /** A boundary that everything after fits, with none earlier for which it does, is where the cap cuts. */
  lemma CapAtBoundary(whole: seq<Byte>, d: nat, maxBytes: nat)
    requires 0 < maxBytes < |whole| && |whole| - maxBytes <= d <= |whole| && Boundary(whole, d)
    requires forall k :: |whole| - maxBytes <= k < d ==> !Boundary(whole, k)
    ensures CappedSuffix(whole, maxBytes) == whole[d..]
  {
    var j := NextBoundary(whole, |whole| - maxBytes);
    assert j == d;
  }

  /** Appending a piece to the capped suffix of `w` and capping again is capping the whole. */
  lemma CapAppend(w: seq<Byte>, piece: seq<Byte>, maxBytes: int)
    requires piece != [] ==> !Continuation(piece[0])
    ensures CappedSuffix(CappedSuffix(w, maxBytes) + piece, maxBytes) == CappedSuffix(w + piece, maxBytes)
  {
    if maxBytes > 0 && |w| > maxBytes {
      var d, whole := NextBoundary(w, |w| - maxBytes), w + piece;
      assert CappedSuffix(w, maxBytes) + piece == whole[d..];
      if |whole| - d > maxBytes {
        CapInTail(whole, d, maxBytes);
      } else {
        assert Boundary(whole, d);
        forall k | |whole| - maxBytes <= k < d
          ensures !Boundary(whole, k)
        {
          assert !Boundary(w, k);
        }
        CapAtBoundary(whole, d, maxBytes);
      }
    }
  }

  lemma NoneLonger(full: seq<Byte>, cap: nat, value: seq<Byte>, other: seq<Byte>)
    requires LongestValid(full, cap, value) && LongestValid(full, cap, other)
    ensures |other| <= |value|
  {
    assert ValidFrom(full, |full| - |other|);
  }

  lemma LongestIsOne(full: seq<Byte>, cap: nat, a: seq<Byte>, b: seq<Byte>)
    requires LongestValid(full, cap, a) && LongestValid(full, cap, b)
    ensures a == b
  {
    NoneLonger(full, cap, a, b);
    NoneLonger(full, cap, b, a);
  }

  /** Of a valid text the longest valid suffix that fits is the capped suffix. */
  lemma LongestIsCapped(full: seq<Byte>, cap: nat, value: seq<Byte>)
    requires Valid(full) && 0 < cap < |full| && LongestValid(full, cap, value)
    ensures value == CappedSuffix(full, cap)
  {
    CappedSuffixIsLongest(full, cap);
    LongestIsOne(full, cap, value, CappedSuffix(full, cap));
  }

  /** Cuts `full` to its last `maxBytes` bytes, then drops bytes until what is left is valid. */
  method CutToCap(full: seq<Byte>, maxBytes: nat) returns (value: seq<Byte>)
    requires 0 < maxBytes < |full|
    ensures LongestValid(full, maxBytes, value)
    ensures Valid(full) ==> value == CappedSuffix(full, maxBytes)
  {
    var start := |full| - maxBytes;
    value := full[start..];
    ghost var cut := start;
    while value != [] && !Valid(value)
      invariant start <= cut <= |full| && value == full[cut..]
      invariant forall k: nat :: start <= k < cut ==> !ValidFrom(full, k)
      decreases |value|
    {
      assert !ValidFrom(full, cut);
      value := value[1..];
      cut := cut + 1;
    }
    if Valid(full) {
      LongestIsCapped(full, maxBytes, value);
    }
  }

  /** One append step on a capped buffer, measured against everything appended so far. */
  lemma AppendKeepsInvariant(whole: seq<Byte>, content: seq<Byte>, maxBytes: int)
    requires Valid(whole) && Valid(content)
    ensures Valid(whole + content) && RuneCount(whole + content) == RuneCount(whole) + RuneCount(content)
    ensures Valid(CappedSuffix(whole, maxBytes) + content)
    ensures CappedSuffix(CappedSuffix(whole, maxBytes) + content, maxBytes) == CappedSuffix(whole + content, maxBytes)
  {
    ConcatValid(whole, content);
    CapAppend(whole, content, maxBytes);
    CappedSuffixValid(whole, maxBytes);
    ConcatValid(CappedSuffix(whole, maxBytes), content);
  }
}
