/** The string operations the directory page and the add-user form rely on:
    `trim()`, `toLowerCase()`, `includes()`, the `\s` character class and name
    comparison, all restricted to ASCII. */
module Text {

  /** The characters that `\s` matches and `trim()` removes, restricted to
      ASCII: space, tab, line feed, vertical tab, form feed, carriage return. */
  predicate IsSpace(c: char) {
    c == ' ' || '\t' <= c <= '\r'
  }

  /** No character of `s` is white space. */
  predicate NoSpace(s: string) {
    forall i :: 0 <= i < |s| ==> !IsSpace(s[i])
  }

  /** Every character of `s` is white space (vacuously true of ""). */
  predicate AllSpace(s: string) {
    forall i :: 0 <= i < |s| ==> IsSpace(s[i])
  }

  /** `s` neither starts nor ends with white space. */
  predicate Trimmed(s: string) {
    s == [] || (!IsSpace(s[0]) && !IsSpace(s[|s| - 1]))
  }

  /** `s` with its leading white space removed. */
  function TrimStart(s: string): string {
    if s != [] && IsSpace(s[0]) then TrimStart(s[1..]) else s
  }

  /** `s` with its trailing white space removed. */
  function TrimEnd(s: string): string {
    if s != [] && IsSpace(s[|s| - 1]) then TrimEnd(s[..|s| - 1]) else s
  }

  /** TrimStart drops a white-space prefix and keeps the rest. */
  lemma {:induction false} TrimStartSpec(s: string)
    ensures var r := TrimStart(s);
      && |r| <= |s| && r == s[|s| - |r|..]
      && (forall i :: 0 <= i < |s| - |r| ==> IsSpace(s[i]))
      && (r == [] || !IsSpace(r[0]))
  {
    if s != [] && IsSpace(s[0]) {
      var t := s[1..];
      TrimStartSpec(t);
      var r := TrimStart(t);
      assert TrimStart(s) == r;
      assert s[|s| - |r|..] == t[|t| - |r|..];
      forall i | 0 <= i < |s| - |r|
        ensures IsSpace(s[i])
      {
        if i > 0 {
          assert s[i] == t[i - 1];
        }
      }
    }
  }

  /** TrimEnd drops a white-space suffix and keeps the rest. */
  lemma {:induction false} TrimEndSpec(s: string)
    ensures var r := TrimEnd(s);
      && |r| <= |s| && r == s[..|r|]
      && (forall i :: |r| <= i < |s| ==> IsSpace(s[i]))
      && (r == [] || !IsSpace(r[|r| - 1]))
  {
    if s != [] && IsSpace(s[|s| - 1]) {
      var t := s[..|s| - 1];
      TrimEndSpec(t);
      var r := TrimEnd(t);
      assert TrimEnd(s) == r;
      assert s[..|r|] == t[..|r|];
      forall i | |r| <= i < |s|
        ensures IsSpace(s[i])
      {
        if i < |s| - 1 {
          assert s[i] == t[i];
        }
      }
    }
  }

  /** `r` is the slice of `s` at offset `k`, and everything before and after
      that slice is white space. */
  predicate StripsAt(s: string, r: string, k: int) {
    0 <= k && OccursAt(s, r, k) && AllSpace(s[..k]) && AllSpace(s[k + |r|..])
  }

  /** `String.prototype.trim`: the slice of `s` left once the white space at
      both ends is dropped; it neither starts nor ends with white space and is
      empty exactly when `s` is all white space. */
  function Trim(s: string): (r: string)
    ensures Trimmed(r)
    ensures r == [] <==> AllSpace(s)
    ensures Contains(s, r)
    ensures exists k :: StripsAt(s, r, k)
  {
    var t := TrimStart(s);
    TrimStrips(s);
    StripsAtFacts(s, TrimEnd(t), |s| - |t|);
    TrimEnd(t)
  }

  /** The two halves of Trim together drop exactly the white space at the
      ends. */
  lemma TrimStrips(s: string)
    ensures var t := TrimStart(s);
      |t| <= |s| && StripsAt(s, TrimEnd(t), |s| - |t|) && Trimmed(TrimEnd(t))
  {
    var t := TrimStart(s);
    TrimStartSpec(s);
    TrimEndSpec(t);
    StripBothEnds(s, t, TrimEnd(t));
  }

  /** Dropping a white-space prefix of `s` to get `t`, then a white-space
      suffix of `t` to get `r`, leaves `r` with white space around it in `s`. */
  lemma StripBothEnds(s: string, t: string, r: string)
    requires |t| <= |s| && t == s[|s| - |t|..]
    requires forall i :: 0 <= i < |s| - |t| ==> IsSpace(s[i])
    requires t == [] || !IsSpace(t[0])
    requires |r| <= |t| && r == t[..|r|]
    requires forall i :: |r| <= i < |t| ==> IsSpace(t[i])
    requires r == [] || !IsSpace(r[|r| - 1])
    ensures StripsAt(s, r, |s| - |t|) && Trimmed(r)
  {
    var k := |s| - |t|;
    assert s[k..k + |r|] == r;
    var head, tail := s[..k], s[k + |r|..];
    forall i | 0 <= i < |head|
      ensures IsSpace(head[i])
    {
      assert head[i] == s[i];
    }
    forall i | 0 <= i < |tail|
      ensures IsSpace(tail[i])
    {
      assert tail[i] == t[|r| + i];
    }
    assert r != [] ==> r[0] == t[0];
  }

  /** A trimmed slice with only white space around it is part of the text,
      and is empty exactly when the text is all white space. */
  lemma StripsAtFacts(s: string, r: string, k: int)
    requires StripsAt(s, r, k) && Trimmed(r)
    ensures Contains(s, r)
    ensures r == [] <==> AllSpace(s)
  {
    if r == [] {
      assert s == s[..k] + s[k..];
    } else {
      assert s[k] == r[0];
    }
  }

  /** Text without white space is its own trim. */
  lemma {:induction false} TrimNoSpace(s: string)
    requires NoSpace(s)
    ensures Trim(s) == s
  {
    if s != [] {
      assert !IsSpace(s[0]) && !IsSpace(s[|s| - 1]);
    }
  }

  /** `toLowerCase()` on one character, ASCII only. */
  function LowerChar(c: char): (r: char)
    ensures !('A' <= r <= 'Z')
    ensures 'A' <= c <= 'Z' ==> 'a' <= r <= 'z' && r as int - 'a' as int == c as int - 'A' as int
    ensures IsSpace(r) <==> IsSpace(c)
    ensures !('A' <= c <= 'Z') ==> r == c
  {
    if 'A' <= c <= 'Z' then (c as int - 'A' as int + 'a' as int) as char else c
  }

  /** `String.prototype.toLowerCase`, ASCII only. */
  function Lower(s: string): (r: string)
    ensures |r| == |s|
    ensures forall i :: 0 <= i < |s| ==> r[i] == LowerChar(s[i])
  {
    seq(|s|, i requires 0 <= i < |s| => LowerChar(s[i]))
  }

  /** Lower-casing works piece by piece. */
  lemma LowerAppend(a: string, b: string)
    ensures Lower(a + b) == Lower(a) + Lower(b)
  {
  }

  /** `s.replace(/\s+/g, "")`: removing every run of white space is removing
      every white-space character. */
  function RemoveSpace(s: string): string {
    if s == [] then []
    else if IsSpace(s[0]) then RemoveSpace(s[1..])
    else [s[0]] + RemoveSpace(s[1..])
  }

  /** RemoveSpace keeps exactly the characters of `s` that are not white
      space, so it is empty exactly when `s` is all white space. */
  lemma {:induction false} RemoveSpaceSpec(s: string)
    ensures var r := RemoveSpace(s);
      && NoSpace(r)
      && |r| <= |s|
      && (r == [] <==> AllSpace(s))
      && (forall c :: c in r <==> c in s && !IsSpace(c))
  {
    if s != [] {
      RemoveSpaceSpec(s[1..]);
      assert s == [s[0]] + s[1..];
      if !IsSpace(s[0]) {
        assert RemoveSpace(s)[0] == s[0];
      }
    }
  }

  /** Removing white space works piece by piece. */
  lemma {:induction false} RemoveSpaceAppend(a: string, b: string)
    ensures RemoveSpace(a + b) == RemoveSpace(a) + RemoveSpace(b)
  {
    if a == [] {
      assert a + b == b;
    } else {
      assert (a + b)[0] == a[0] && (a + b)[1..] == a[1..] + b;
      RemoveSpaceAppend(a[1..], b);
    }
  }

  /** Text without white space is left as it is. */
  lemma {:induction false} RemoveSpaceNoSpace(s: string)
    requires NoSpace(s)
    ensures RemoveSpace(s) == s
  {
    if s != [] {
      RemoveSpaceNoSpace(s[1..]);
      assert s == [s[0]] + s[1..];
    }
  }

  /** `s.includes(part)`: `part` occurs in `s` as a contiguous slice. */
  predicate Contains(s: string, part: string) {
    exists k | 0 <= k <= |s| - |part| :: OccursAt(s, part, k)
  }

  /** `part` occurs in `s` starting at index `k`. */
  predicate OccursAt(s: string, part: string, k: nat) {
    k + |part| <= |s| && s[k..k + |part|] == part
  }

  /** Every string includes the empty string. */
  lemma ContainsEmpty(s: string)
    ensures Contains(s, "")
  {
    assert OccursAt(s, "", 0);
  }

  /** Lexicographic comparison by character code, standing in for
      `localeCompare`: negative, zero or positive as `a` sorts before, with or
      after `b`. */
  function Compare(a: string, b: string): (r: int)
    ensures -1 <= r <= 1
    ensures r == 0 <==> a == b
  {
    if a == [] && b == [] then 0
    else if a == [] then -1
    else if b == [] then 1
    else if a[0] < b[0] then -1
    else if a[0] > b[0] then 1
    else
      var r := Compare(a[1..], b[1..]);
      assert a == [a[0]] + a[1..] && b == [b[0]] + b[1..];
      r
  }

  /** Swapping the operands negates the comparison. */
  lemma {:induction false} CompareFlip(a: string, b: string)
    ensures Compare(b, a) == -Compare(a, b)
  {
    if a != [] && b != [] && a[0] == b[0] {
      CompareFlip(a[1..], b[1..]);
    }
  }

  /** The comparison is transitive, so together with CompareFlip it is a total
      order on names. */
  lemma {:induction false} CompareTransitive(a: string, b: string, c: string)
    requires Compare(a, b) <= 0 && Compare(b, c) <= 0
    ensures Compare(a, c) <= 0
  {
    if a != [] && b != [] && c != [] && a[0] == b[0] && b[0] == c[0] {
      CompareTransitive(a[1..], b[1..], c[1..]);
    }
  }
}
