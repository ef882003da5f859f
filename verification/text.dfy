/** String helpers with the semantics the link handlers rely on:
    JavaScript's `String.prototype.trim`, ASCII case folding and substring search. */
module Text {

  /** The code points ECMAScript classifies as WhiteSpace or LineTerminator
      (sections 12.2 and 12.3 of ECMA-262): these are what `trim` removes. */
  predicate IsJsSpace(c: char) {
    || c == '\t' || c == '\n' || c == '\U{000B}' || c == '\U{000C}' || c == '\r'
    || c == ' ' || c == '\U{00A0}' || c == '\U{1680}'
    || ('\U{2000}' <= c <= '\U{200A}')
    || c == '\U{2028}' || c == '\U{2029}' || c == '\U{202F}' || c == '\U{205F}'
    || c == '\U{3000}' || c == '\U{FEFF}'
  }

  predicate AllSpace(s: string) {
    forall i :: 0 <= i < |s| ==> IsJsSpace(s[i])
  }

  /** Drops the leading white space: the result is the suffix of `s` that
      starts at its first non-space character. */
  function TrimStart(s: string): (r: string)
    ensures |r| <= |s| && r == s[|s| - |r|..]
    ensures forall i :: 0 <= i < |s| - |r| ==> IsJsSpace(s[i])
    ensures r == [] || !IsJsSpace(r[0])
  {
    if s != [] && IsJsSpace(s[0]) then TrimStart(s[1..]) else s
  }

  /** Drops the trailing white space: the result is the prefix of `s` that
      ends at its last non-space character. */
  function TrimEnd(s: string): (r: string)
    ensures |r| <= |s| && r == s[..|r|]
    ensures forall i :: |r| <= i < |s| ==> IsJsSpace(s[i])
    ensures r == [] || !IsJsSpace(r[|r| - 1])
  {
    if s != [] && IsJsSpace(s[|s| - 1]) then TrimEnd(s[..|s| - 1]) else s
  }

  /** `s.trim()`. */
  function Trim(s: string): (r: string)
    ensures |r| <= |s|
    ensures r == [] <==> AllSpace(s)
    ensures r != [] ==> !IsJsSpace(r[0]) && !IsJsSpace(r[|r| - 1])
  {
    TrimEnd(TrimStart(s))
  }

  /** `TrimStart` stops at the first non-space character. */
  lemma {:induction false} TrimStartAt(s: string, lo: nat)
    requires lo <= |s|
    requires forall i :: 0 <= i < lo ==> IsJsSpace(s[i])
    requires lo < |s| ==> !IsJsSpace(s[lo])
    ensures TrimStart(s) == s[lo..]
  {
    if lo > 0 {
      assert IsJsSpace(s[0]);
      TrimStartAt(s[1..], lo - 1);
      assert s[1..][lo - 1..] == s[lo..];
    }
  }

  /** `TrimEnd` stops after the last non-space character. */
  lemma {:induction false} TrimEndAt(s: string, hi: nat)
    requires hi <= |s|
    requires forall i :: hi <= i < |s| ==> IsJsSpace(s[i])
    requires 0 < hi ==> !IsJsSpace(s[hi - 1])
    ensures TrimEnd(s) == s[..hi]
  {
    if hi < |s| {
      assert IsJsSpace(s[|s| - 1]);
      var init := s[..|s| - 1];
      TrimEndAt(init, hi);
      assert init[..hi] == s[..hi];
    }
  }

  /** Trimming is characterised by its cut points: whenever `s` splits into
      white space, a middle part that neither starts nor ends with white
      space, and white space, the middle part is `Trim(s)`. */
  lemma TrimUnique(s: string, lo: nat, hi: nat)
    requires lo <= hi <= |s|
    requires forall i :: 0 <= i < lo ==> IsJsSpace(s[i])
    requires forall i :: hi <= i < |s| ==> IsJsSpace(s[i])
    requires lo < hi ==> !IsJsSpace(s[lo]) && !IsJsSpace(s[hi - 1])
    ensures Trim(s) == s[lo..hi]
  {
    if lo == hi {
      AllSpaceAround(s, lo);
    } else {
      TrimStartAt(s, lo);
      TrimEndAt(s[lo..], hi - lo);
      PrefixOfSuffix(s, lo, hi);
    }
  }

  /** White space up to a point and from that point on is white space throughout. */
  lemma AllSpaceAround(s: string, k: nat)
    requires k <= |s|
    requires forall i :: 0 <= i < k ==> IsJsSpace(s[i])
    requires forall i :: k <= i < |s| ==> IsJsSpace(s[i])
    ensures AllSpace(s)
  {
  }

  lemma PrefixOfSuffix<T>(s: seq<T>, lo: nat, hi: nat)
    requires lo <= hi <= |s|
    ensures s[lo..][..hi - lo] == s[lo..hi]
  {
  }

  /** Trimming twice is trimming once. */
  lemma TrimIdempotent(s: string)
    ensures Trim(Trim(s)) == Trim(s)
  {
    var r := Trim(s);
    TrimUnique(r, 0, |r|);
    assert r[0..|r|] == r;
  }

  /** ASCII lower-casing of one character. */
  function LowerChar(c: char): char {
    if 'A' <= c <= 'Z' then (c as int + 32) as char else c
  }

  /** ASCII lower-casing of a string, character by character. */
  function Lower(s: string): string {
    seq(|s|, i requires 0 <= i < |s| => LowerChar(s[i]))
  }

  /** `needle` occurs in `hay` starting at position `i`. */
  predicate OccursAt(hay: string, needle: string, i: nat)
    requires i + |needle| <= |hay|
  {
    hay[i..i + |needle|] == needle
  }

  /** Substring search by sliding the needle along the haystack. */
  function Contains(hay: string, needle: string): bool
    decreases |hay|
  {
    if needle <= hay then true
    else if |hay| <= |needle| then false
    else Contains(hay[1..], needle)
  }

  /** The search finds `needle` exactly when it occurs somewhere in `hay`. */
  lemma {:induction false} ContainsIffOccurs(hay: string, needle: string)
    ensures Contains(hay, needle) <==>
            exists i: nat :: i + |needle| <= |hay| && OccursAt(hay, needle, i)
    decreases |hay|
  {
    if needle <= hay {
      assert OccursAt(hay, needle, 0);
    } else if |hay| <= |needle| {
      forall i: nat | i + |needle| <= |hay| ensures !OccursAt(hay, needle, i) {
        assert i == 0;
      }
    } else {
      ContainsIffOccurs(hay[1..], needle);
      if Contains(hay[1..], needle) {
        var i: nat :| i + |needle| <= |hay[1..]| && OccursAt(hay[1..], needle, i);
        SliceOfTail(hay, i + 1, i + 1 + |needle|);
        assert OccursAt(hay, needle, i + 1);
      } else {
        forall i: nat | i + |needle| <= |hay| ensures !OccursAt(hay, needle, i) {
          if i > 0 {
            SliceOfTail(hay, i, i + |needle|);
            assert !OccursAt(hay[1..], needle, i - 1);
          }
        }
      }
    }
  }

  lemma SliceOfTail<T>(s: seq<T>, lo: nat, hi: nat)
    requires 1 <= lo <= hi <= |s|
    ensures s[1..][lo - 1..hi - 1] == s[lo..hi]
  {
  }

  /** Case-insensitive containment, with case folding restricted to ASCII. */
  predicate ContainsIgnoreCase(hay: string, needle: string) {
    Contains(Lower(hay), Lower(needle))
  }
}
