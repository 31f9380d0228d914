/** The string operations the screens rely on: ECMAScript's `String.prototype.trim`,
    `toLowerCase` (ASCII letters only) and `includes`, and the free-text search
    that the task and resource lists share. */
module Text {
  import opened Types

  /** The characters `trim` strips: ECMAScript's WhiteSpace and LineTerminator
      code points (tab, line feed, vertical tab, form feed, carriage return,
      space, no-break space, the Zs space separators, the line and paragraph
      separators and the byte-order mark). */
  predicate IsSpace(c: char) {
    || c == '\t' || c == '\n' || c == '\U{000B}' || c == '\U{000C}' || c == '\r'
    || c == ' ' || c == '\U{00A0}' || c == '\U{1680}'
    || ('\U{2000}' <= c <= '\U{200A}')
    || c == '\U{2028}' || c == '\U{2029}' || c == '\U{202F}' || c == '\U{205F}'
    || c == '\U{3000}' || c == '\U{FEFF}'
  }

  predicate AllSpace(s: string) {
    forall k :: 0 <= k < |s| ==> IsSpace(s[k])
  }

  /** `s` without its leading white space. */
  function TrimStart(s: string): (r: string)
    ensures |r| <= |s|
    ensures r == s[|s| - |r|..]
    ensures AllSpace(s[..|s| - |r|])
    ensures |r| > 0 ==> !IsSpace(r[0])
  {
    if |s| > 0 && IsSpace(s[0]) then TrimStart(s[1..]) else s
  }

  /** `s` without its trailing white space. */
  function TrimEnd(s: string): (r: string)
    ensures |r| <= |s| && r == s[..|r|]
    ensures AllSpace(s[|r|..])
    ensures |r| > 0 ==> !IsSpace(r[|r| - 1])
  {
    if |s| > 0 && IsSpace(s[|s| - 1]) then TrimEnd(s[..|s| - 1]) else s
  }

  /** `r` is the slice of `s` starting at `i`, and only white space lies
      before and after it. */
  predicate TrimmedAt(s: string, r: string, i: int) {
    && 0 <= i <= |s| - |r|
    && r == s[i..i + |r|]
    && AllSpace(s[..i])
    && AllSpace(s[i + |r|..])
  }

  /** `r` neither starts nor ends with white space. */
  predicate NoOuterSpace(r: string) {
    |r| > 0 ==> !IsSpace(r[0]) && !IsSpace(r[|r| - 1])
  }

  /** ECMAScript's `trim`: `s` without leading and trailing white space. */
  function Trim(s: string): (r: string)
    ensures exists i :: TrimmedAt(s, r, i)
    ensures NoOuterSpace(r)
  {
    var front := TrimStart(s);
    var r := TrimEnd(front);
    TrimParts(s, front, r);
    r
  }

  lemma TrimParts(s: string, front: string, r: string)
    requires |front| <= |s| && front == s[|s| - |front|..] && AllSpace(s[..|s| - |front|])
    requires |front| > 0 ==> !IsSpace(front[0])
    requires |r| <= |front| && r == front[..|r|] && AllSpace(front[|r|..])
    requires |r| > 0 ==> !IsSpace(r[|r| - 1])
    ensures TrimmedAt(s, r, |s| - |front|)
    ensures NoOuterSpace(r)
  {
    var i := |s| - |front|;
    assert s[i..i + |r|] == s[i..][..|r|];
    assert s[i + |r|..] == front[|r|..];
  }

  /** Trimming empties exactly the strings made of white space only. */
  lemma TrimEmptyIffAllSpace(s: string)
    ensures |Trim(s)| == 0 <==> AllSpace(s)
  {
    var r := Trim(s);
    var i :| TrimmedAt(s, r, i);
    if |r| == 0 {
      forall k | 0 <= k < |s|
        ensures IsSpace(s[k])
      {
        if k < i {
          assert s[k] == s[..i][k];
        } else {
          assert s[k] == s[i + |r|..][k - i];
        }
      }
    } else {
      assert s[i] == r[0];
    }
  }

  /** A string that `trim` empties: JavaScript treats the trimmed text as false. */
  predicate IsBlank(s: string) {
    |Trim(s)| == 0
  }

  /** Trimming twice trims nothing more. */
  lemma TrimIdempotent(s: string)
    ensures Trim(Trim(s)) == Trim(s)
  {
    var t := Trim(s);
    if |t| > 0 {
      assert TrimStart(t) == t;
      assert TrimEnd(t) == t;
    }
  }

  function LowerChar(c: char): char {
    if IsUpper(c) then (c as int + 32) as char else c
  }

  predicate IsUpper(c: char) {
    'A' <= c <= 'Z'
  }

  /** `toLowerCase`, restricted to the ASCII letters A-Z: no capital is left,
      each capital becomes the letter 32 code points above it, and every other
      character stays as it is. */
  function ToLower(s: string): (r: string)
    ensures |r| == |s|
    ensures forall k :: 0 <= k < |r| ==> !IsUpper(r[k])
    ensures forall k :: 0 <= k < |s| && IsUpper(s[k]) ==> r[k] as int == s[k] as int + 32
    ensures forall k :: 0 <= k < |s| && !IsUpper(s[k]) ==> r[k] == s[k]
  {
    seq(|s|, k requires 0 <= k < |s| => LowerChar(s[k]))
  }

  /** Lower-casing lower-cased text changes nothing. */
  lemma ToLowerIdempotent(s: string)
    ensures ToLower(ToLower(s)) == ToLower(s)
  {
  }

  /** The search is blind to the case of the term: a lower-cased term matches
      the same rows as the term as typed. */
  lemma SearchIgnoresTermCase(title: string, description: Option<string>, term: string)
    ensures SearchMatches(title, description, ToLower(term)) == SearchMatches(title, description, term)
  {
    ToLowerIdempotent(term);
  }

  /** `sub` occurs in `s` starting at position `i`. */
  predicate OccursAt(s: string, sub: string, i: int) {
    0 <= i && i + |sub| <= |s| && s[i..i + |sub|] == sub
  }

  /** `s.includes(sub)`: searches `sub` from every starting position in turn. */
  function Contains(s: string, sub: string): (b: bool)
    ensures b <==> exists i :: OccursAt(s, sub, i)
    decreases |s|
  {
    if OccursAt(s, sub, 0) then true
    else if |s| == 0 then false
    else
      var rest := Contains(s[1..], sub);
      if rest then
        var i :| OccursAt(s[1..], sub, i);
        assert s[1..][i..i + |sub|] == s[i + 1..i + 1 + |sub|];
        assert OccursAt(s, sub, i + 1);
        true
      else
        assert forall i :: OccursAt(s, sub, i) ==> i == 0 || OccursAt(s[1..], sub, i - 1);
        false
  }

  /** The list screens' search: the lower-cased title, or the lower-cased
      description when there is one, contains the lower-cased term. */
  predicate SearchMatches(title: string, description: Option<string>, term: string) {
    || Contains(ToLower(title), ToLower(term))
    || (description.Some? && Contains(ToLower(description.value), ToLower(term)))
  }

  /** The empty search term matches every row. */
  lemma EmptyTermMatches(title: string, description: Option<string>)
    ensures SearchMatches(title, description, "")
  {
    assert OccursAt(ToLower(title), ToLower(""), 0);
  }
}
