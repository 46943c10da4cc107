/**
 * The string operations the contact backend relies on: JavaScript's
 * `String.prototype.trim`, the `\s` class of its regular expressions (both use
 * the same whitespace set), `includes`, `endsWith`, `toLowerCase` and the
 * newline replacement used in the HTML mail body.
 */
module Text {

  /** ECMAScript WhiteSpace and LineTerminator code points: exactly what `trim`
      strips and what `\s` matches. */
  predicate IsSpace(c: char) {
    c == '\t' || c == '\n' || c == '\U{000B}' || c == '\U{000C}' || c == '\r' || c == ' ' ||
    c == '\U{00A0}' || c == '\U{1680}' || ('\U{2000}' <= c <= '\U{200A}') ||
    c == '\U{2028}' || c == '\U{2029}' || c == '\U{202F}' || c == '\U{205F}' ||
    c == '\U{3000}' || c == '\U{FEFF}'
  }

  predicate AllSpace(s: string) {
    forall i :: 0 <= i < |s| ==> IsSpace(s[i])
  }

  predicate NoSpace(s: string) {
    forall i :: 0 <= i < |s| ==> !IsSpace(s[i])
  }

  /** Neither begins nor ends with whitespace. */
  predicate Unpadded(s: string) {
    s == [] || (!IsSpace(s[0]) && !IsSpace(s[|s| - 1]))
  }

  // ---------------------------------------------------------------- trim

  /** Length of the whitespace prefix. */
  function LeadingSpaces(s: string): (n: nat)
    ensures n <= |s|
    ensures forall i :: 0 <= i < n ==> IsSpace(s[i])
    ensures n < |s| ==> !IsSpace(s[n])
  {
    if s == [] || !IsSpace(s[0]) then 0 else 1 + LeadingSpaces(s[1..])
  }

  /** Length of the whitespace suffix. */
  function TrailingSpaces(s: string): (n: nat)
    ensures n <= |s|
    ensures forall i :: |s| - n <= i < |s| ==> IsSpace(s[i])
    ensures n < |s| ==> !IsSpace(s[|s| - n - 1])
  {
    if s == [] || !IsSpace(s[|s| - 1]) then 0 else 1 + TrailingSpaces(s[..|s| - 1])
  }

  /** `String.prototype.trim`: the string without its leading and trailing whitespace. */
  function Trim(s: string): (r: string)
    ensures Unpadded(r) && |r| <= |s|
  {
    var i := LeadingSpaces(s);
    s[i..|s| - TrailingSpaces(s[i..])]
  }

  /** The input is its trim with whitespace on either side: the trim is
      `s[i..j]`, and `s[..i]` and `s[j..]` are whitespace only. */
  lemma TrimSplit(s: string) returns (i: nat, j: nat)
    ensures i <= j <= |s| && Trim(s) == s[i..j]
    ensures AllSpace(s[..i]) && AllSpace(s[j..])
  {
    i := LeadingSpaces(s);
    var t := s[i..];
    var n := TrailingSpaces(t);
    j := |s| - n;
    forall k | 0 <= k < i ensures IsSpace(s[..i][k]) {
      assert s[..i][k] == s[k];
    }
    forall k | 0 <= k < n ensures IsSpace(s[j..][k]) {
      assert s[j..][k] == t[|t| - n + k];
    }
  }

  lemma {:induction false} LeadingSpacesOf(pre: string, rest: string)
    requires AllSpace(pre) && (rest == [] || !IsSpace(rest[0]))
    ensures LeadingSpaces(pre + rest) == |pre|
  {
    if pre != [] {
      assert (pre + rest)[1..] == pre[1..] + rest;
      LeadingSpacesOf(pre[1..], rest);
    } else {
      assert pre + rest == rest;
    }
  }

  lemma {:induction false} TrailingSpacesOf(rest: string, post: string)
    requires AllSpace(post) && (rest == [] || !IsSpace(rest[|rest| - 1]))
    ensures TrailingSpaces(rest + post) == |post|
  {
    if post != [] {
      assert (rest + post)[..|rest + post| - 1] == rest + post[..|post| - 1];
      TrailingSpacesOf(rest, post[..|post| - 1]);
    } else {
      assert rest + post == rest;
    }
  }

  /** Trim is characterised by its contract: whitespace around an unpadded
      middle is removed, and nothing else. */
  lemma TrimUnique(pre: string, mid: string, post: string)
    requires AllSpace(pre) && AllSpace(post) && Unpadded(mid)
    ensures Trim(pre + mid + post) == mid
  {
    var s := pre + mid + post;
    if mid == [] {
      assert s == (pre + post) + [];
      LeadingSpacesOf(pre + post, []);
      assert s[LeadingSpaces(s)..] == [];
    } else {
      assert s == pre + (mid + post);
      LeadingSpacesOf(pre, mid + post);
      var t := s[|pre|..];
      assert t == mid + post;
      TrailingSpacesOf(mid, post);
      assert t[..|t| - |post|] == mid;
    }
  }

  lemma TrimIdempotent(s: string)
    ensures Trim(Trim(s)) == Trim(s)
  {
    var r := Trim(s);
    assert [] + r + [] == r;
    TrimUnique([], r, []);
  }

  lemma TrimOfUnpadded(s: string)
    requires Unpadded(s)
    ensures Trim(s) == s
  {
    assert [] + s + [] == s;
    TrimUnique([], s, []);
  }

  /** Trim yields the empty string exactly when the input is all whitespace. */
  lemma TrimEmptyIff(s: string)
    ensures Trim(s) == [] <==> AllSpace(s)
  {
    if AllSpace(s) {
      TrimOfAllSpace(s);
    }
    if Trim(s) == [] {
      AllSpaceWhenTrimEmpty(s);
    }
  }

  lemma TrimOfAllSpace(s: string)
    requires AllSpace(s)
    ensures Trim(s) == []
  {
    assert s + [] + [] == s;
    TrimUnique(s, [], []);
  }

  lemma AllSpaceWhenTrimEmpty(s: string)
    requires Trim(s) == []
    ensures AllSpace(s)
  {
    var k, _ := TrimSplit(s);
    forall i | 0 <= i < |s| ensures IsSpace(s[i]) {
      if i < k { assert s[..k][i] == s[i]; } else { assert s[k..][i - k] == s[i]; }
    }
  }

  // ---------------------------------------------------------------- strip all whitespace

  /** `replace(/\s+/gu, '')`: every whitespace character removed, the others kept in order. */
  function RemoveSpaces(s: string): (r: string)
    ensures NoSpace(r) && |r| <= |s|
  {
    if s == [] then []
    else (if IsSpace(s[0]) then [] else [s[0]]) + RemoveSpaces(s[1..])
  }

  lemma {:induction false} RemoveSpacesConcat(a: string, b: string)
    ensures RemoveSpaces(a + b) == RemoveSpaces(a) + RemoveSpaces(b)
  {
    if a != [] {
      assert (a + b)[1..] == a[1..] + b;
      RemoveSpacesConcat(a[1..], b);
    } else {
      assert a + b == b;
    }
  }

  lemma {:induction false} RemoveSpacesOfAllSpace(s: string)
    requires AllSpace(s)
    ensures RemoveSpaces(s) == []
  {
    if s != [] { RemoveSpacesOfAllSpace(s[1..]); }
  }

  /** A string without whitespace is left unchanged. */
  lemma {:induction false} RemoveSpacesOfNoSpace(s: string)
    requires NoSpace(s)
    ensures RemoveSpaces(s) == s
  {
    if s != [] {
      RemoveSpacesOfNoSpace(s[1..]);
      assert s == [s[0]] + s[1..];
    }
  }

  /** Stripping leaves nothing exactly when there was nothing but whitespace. */
  lemma {:induction false} RemoveSpacesEmptyIff(s: string)
    ensures RemoveSpaces(s) == [] <==> AllSpace(s)
  {
    if s != [] {
      RemoveSpacesEmptyIff(s[1..]);
      assert AllSpace(s) <==> IsSpace(s[0]) && AllSpace(s[1..]);
    }
  }

  lemma RemoveSpacesOfPadded(pre: string, mid: string, post: string)
    requires AllSpace(pre) && AllSpace(post)
    ensures RemoveSpaces(pre + mid + post) == RemoveSpaces(mid)
  {
    RemoveSpacesConcat(pre + mid, post);
    RemoveSpacesConcat(pre, mid);
    RemoveSpacesOfAllSpace(pre);
    RemoveSpacesOfAllSpace(post);
    assert [] + RemoveSpaces(mid) + [] == RemoveSpaces(mid);
  }

  /** Stripping after trimming is the same as stripping alone. */
  lemma RemoveSpacesAfterTrim(s: string)
    ensures RemoveSpaces(Trim(s)) == RemoveSpaces(s)
  {
    var i, j := TrimSplit(s);
    SplitAt(s, i, j);
    RemoveSpacesOfPadded(s[..i], s[i..j], s[j..]);
  }

  lemma SplitAt(s: string, i: nat, j: nat)
    requires i <= j <= |s|
    ensures s == s[..i] + s[i..j] + s[j..]
  {
  }

  // ---------------------------------------------------------------- search

  predicate OccursAt(hay: string, needle: string, i: int) {
    0 <= i && i + |needle| <= |hay| && hay[i..i + |needle|] == needle
  }

  /** `hay.includes(needle)`. */
  function Contains(hay: string, needle: string): (b: bool)
    decreases |hay|
  {
    |needle| <= |hay| && (hay[..|needle|] == needle || (hay != [] && Contains(hay[1..], needle)))
  }

  lemma {:induction false} ContainsIff(hay: string, needle: string)
    ensures Contains(hay, needle) <==> exists i :: OccursAt(hay, needle, i)
    decreases |hay|
  {
    if |needle| <= |hay| && hay != [] {
      ContainsIff(hay[1..], needle);
      if exists i :: OccursAt(hay, needle, i) {
        var i :| OccursAt(hay, needle, i);
        if i > 0 {
          assert hay[1..][i - 1..i - 1 + |needle|] == hay[i..i + |needle|];
          assert OccursAt(hay[1..], needle, i - 1);
        }
      }
      if exists j :: OccursAt(hay[1..], needle, j) {
        var j :| OccursAt(hay[1..], needle, j);
        assert hay[1..][j..j + |needle|] == hay[j + 1..j + 1 + |needle|];
        assert OccursAt(hay, needle, j + 1);
      }
      assert OccursAt(hay, needle, 0) <==> hay[..|needle|] == needle;
    } else if |needle| <= |hay| {
      assert OccursAt(hay, needle, 0);
    }
  }

  /** `s.endsWith(suffix)`. */
  function EndsWith(s: string, suffix: string): (b: bool)
    ensures b <==> exists i :: OccursAt(s, suffix, i) && i + |suffix| == |s|
  {
    var b := |suffix| <= |s| && s[|s| - |suffix|..] == suffix;
    assert b ==> OccursAt(s, suffix, |s| - |suffix|);
    b
  }

  // ---------------------------------------------------------------- case

  function LowerAscii(c: char): (d: char)
    ensures 'A' <= c <= 'Z' ==> 'a' <= d <= 'z' && d as int - c as int == 32
    ensures !('A' <= c <= 'Z') ==> d == c
  {
    if 'A' <= c <= 'Z' then (c as int + 32) as char else c
  }

  /** `toLowerCase`, on ASCII letters. */
  function ToLowerAscii(s: string): (r: string)
    ensures |r| == |s|
    ensures forall i :: 0 <= i < |s| ==> r[i] == LowerAscii(s[i])
  {
    seq(|s|, i requires 0 <= i < |s| => LowerAscii(s[i]))
  }

  /** Comparing the lower-cased text with a lower-case word ignores the case of each letter. */
  lemma LowerEqualsIff(s: string, word: string)
    requires forall i :: 0 <= i < |word| ==> !('A' <= word[i] <= 'Z')
    ensures ToLowerAscii(s) == word <==>
      |s| == |word| && forall i :: 0 <= i < |s| ==> s[i] == word[i] || LowerAscii(s[i]) == word[i]
  {
    if |s| == |word| && forall i :: 0 <= i < |s| ==> s[i] == word[i] || LowerAscii(s[i]) == word[i] {
      forall i | 0 <= i < |s| ensures ToLowerAscii(s)[i] == word[i] {
        if s[i] == word[i] { assert LowerAscii(word[i]) == word[i]; }
      }
    }
  }

  // ---------------------------------------------------------------- HTML line breaks

  /** `replace(/\n/g, '<br>')`. */
  function NewlinesToBreaks(s: string): (r: string)
    ensures '\n' !in r
  {
    if s == [] then []
    else (if s[0] == '\n' then "<br>" else [s[0]]) + NewlinesToBreaks(s[1..])
  }

  /** The replacement works character by character: a newline becomes `<br>`
      and any other character stays. */
  lemma NewlinesToBreaksChar(c: char)
    ensures c == '\n' ==> NewlinesToBreaks([c]) == "<br>"
    ensures c != '\n' ==> NewlinesToBreaks([c]) == [c]
  {
  }

  /** ... and it distributes over concatenation, so together with
      `NewlinesToBreaksChar` it fixes the result on every input. */
  lemma {:induction false} NewlinesToBreaksConcat(a: string, b: string)
    ensures NewlinesToBreaks(a + b) == NewlinesToBreaks(a) + NewlinesToBreaks(b)
  {
    if a != [] {
      assert (a + b)[1..] == a[1..] + b;
      NewlinesToBreaksConcat(a[1..], b);
    } else {
      assert a + b == b;
    }
  }

  lemma {:induction false} NewlinesToBreaksWithoutNewline(s: string)
    requires '\n' !in s
    ensures NewlinesToBreaks(s) == s
  {
    if s != [] {
      assert '\n' !in s[1..] by { assert forall c :: c in s[1..] ==> c in s; }
      NewlinesToBreaksWithoutNewline(s[1..]);
      assert s == [s[0]] + s[1..];
    }
  }
}
