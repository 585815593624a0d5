/**
 * The string helpers the browser relies on: ASCII trimming and case folding
 * (`String.prototype.trim` and `toLowerCase` restricted to ASCII), substring
 * search (`String.prototype.includes`) and HTML escaping (`escapeHtml`).
 */
module Text {

  /** The ASCII characters `trim` removes: tab, line feed, vertical tab,
      form feed, carriage return and space. */
  predicate IsSpace(c: char) {
    c == ' ' || 9 <= c as int <= 13
  }

  /** Every character of `s` is whitespace (this includes the empty string). */
  predicate IsBlank(s: string) {
    forall i :: 0 <= i < |s| ==> IsSpace(s[i])
  }

  /** The first index at or after `i` that does not hold whitespace
      (`|s|` when there is none). */
  function SkipSpaces(s: string, i: nat): (n: nat)
    requires i <= |s|
    ensures i <= n <= |s|
    ensures forall k :: i <= k < n ==> IsSpace(s[k])
    ensures n < |s| ==> !IsSpace(s[n])
    decreases |s| - i
  {
    if i < |s| && IsSpace(s[i]) then SkipSpaces(s, i + 1) else i
  }

  /** The end of `s[lo..j]` once its trailing whitespace is cut off. */
  function SkipSpacesBack(s: string, lo: nat, j: nat): (n: nat)
    requires lo <= j <= |s|
    ensures lo <= n <= j
    ensures forall k :: n <= k < j ==> IsSpace(s[k])
    ensures lo < n ==> !IsSpace(s[n - 1])
    decreases j
  {
    if lo < j && IsSpace(s[j - 1]) then SkipSpacesBack(s, lo, j - 1) else j
  }

  /** How many whitespace characters `s` starts with. */
  function LeadingSpaces(s: string): (n: nat)
    ensures n <= |s|
    ensures forall k :: 0 <= k < n ==> IsSpace(s[k])
    ensures n < |s| ==> !IsSpace(s[n])
  {
    SkipSpaces(s, 0)
  }

  /** `String.prototype.trim` on ASCII whitespace: the piece of `s` that is
      left once the blank ends are cut off. */
  function Trim(s: string): (r: string)
    ensures LeadingSpaces(s) + |r| <= |s|
    ensures r == s[LeadingSpaces(s)..LeadingSpaces(s) + |r|]
    ensures forall k :: LeadingSpaces(s) + |r| <= k < |s| ==> IsSpace(s[k])
    ensures r != [] ==> !IsSpace(r[0]) && !IsSpace(r[|r| - 1])
    ensures r == [] <==> IsBlank(s)
  {
    var i := LeadingSpaces(s);
    var j := SkipSpacesBack(s, i, |s|);
    s[i..j]
  }

  /** A text with no whitespace at either end is its own trim. */
  lemma TrimUnpadded(s: string)
    requires s != [] ==> !IsSpace(s[0]) && !IsSpace(s[|s| - 1])
    ensures Trim(s) == s
  {
    assert LeadingSpaces(s) == 0;
    assert s[0..|s|] == s;
  }

  /** Trimming twice is trimming once. */
  lemma TrimIdempotent(s: string)
    ensures Trim(Trim(s)) == Trim(s)
  {
    TrimUnpadded(Trim(s));
  }

  /** `toLowerCase` on one character, restricted to ASCII letters. */
  function LowerChar(c: char): char {
    if 'A' <= c <= 'Z' then ('a' as int + (c as int - 'A' as int)) as char else c
  }

  /** `toLowerCase` on a string: every character folded, nothing else changed. */
  function Lower(s: string): (r: string)
    ensures |r| == |s|
    ensures forall i :: 0 <= i < |s| ==> r[i] == LowerChar(s[i])
  {
    if s == [] then [] else [LowerChar(s[0])] + Lower(s[1..])
  }

  lemma LowerSlice(s: string, i: int, j: int)
    requires 0 <= i <= j <= |s|
    ensures Lower(s[i..j]) == Lower(s)[i..j]
  {
    var a := Lower(s[i..j]);
    var b := Lower(s)[i..j];
    forall k | 0 <= k < |a|
      ensures a[k] == b[k]
    {
      assert s[i..j][k] == s[i + k];
    }
    assert a == b;
  }

  /** `String.prototype.includes`: try each start position of `s` in turn. */
  predicate Includes(s: string, q: string)
    decreases |s|
  {
    q <= s || (s != [] && Includes(s[1..], q))
  }

  /** `q` occurs in `s` starting at index `i`. */
  ghost predicate OccursAt(s: string, q: string, i: int) {
    0 <= i <= |s| - |q| && s[i..i + |q|] == q
  }

  /** The scanning search agrees with the definition of a substring. */
  lemma IncludesIffOccurs(s: string, q: string)
    ensures Includes(s, q) <==> exists i :: OccursAt(s, q, i)
  {
    if Includes(s, q) {
      var i := OccurrenceOf(s, q);
    }
    if exists i :: OccursAt(s, q, i) {
      var i :| OccursAt(s, q, i);
      IncludesOfOccurrence(s, q, i);
    }
  }

  /** Where the scan stops: an offset at which `q` occurs. */
  lemma {:induction false} OccurrenceOf(s: string, q: string) returns (i: int)
    requires Includes(s, q)
    ensures OccursAt(s, q, i)
    decreases |s|
  {
    if q <= s {
      i := 0;
      assert s[0..|q|] == q;
    } else {
      var j := OccurrenceOf(s[1..], q);
      assert s[1..][j..j + |q|] == s[j + 1..j + 1 + |q|];
      i := j + 1;
    }
  }

  /** The scan reaches every offset at which `q` occurs. */
  lemma {:induction false} IncludesOfOccurrence(s: string, q: string, i: int)
    requires OccursAt(s, q, i)
    ensures Includes(s, q)
    decreases i
  {
    if i == 0 {
      assert q <= s;
    } else {
      assert s[1..][i - 1..i - 1 + |q|] == s[i..i + |q|];
      IncludesOfOccurrence(s[1..], q, i - 1);
    }
  }

  /** Every slice of `s` is found in `s`. */
  lemma IncludesSlice(s: string, i: int, j: int)
    requires 0 <= i <= j <= |s|
    ensures Includes(s, s[i..j])
  {
    assert OccursAt(s, s[i..j], i);
    IncludesIffOccurs(s, s[i..j]);
  }

  /** The five characters `escapeHtml` rewrites. */
  predicate IsSpecial(c: char) {
    c == '&' || c == '<' || c == '>' || c == '"' || c == '\''
  }

  /** `s` holds none of the characters that can open a tag or end an attribute
      value: no `<`, `>`, `"` or `'`. */
  predicate MarkupFree(s: string) {
    forall i :: 0 <= i < |s| ==> s[i] != '<' && s[i] != '>' && s[i] != '"' && s[i] != '\''
  }

  /** The replacement `escapeHtml` uses for one character. */
  function Entity(c: char): string {
    match c
    case '&' => "&amp;"
    case '<' => "&lt;"
    case '>' => "&gt;"
    case '"' => "&quot;"
    case '\'' => "&#39;"
    case _ => [c]
  }

  /** `escapeHtml`: each character replaced by its entity, in order. Its result
      can be placed in element text or a quoted attribute value. */
  function Escape(s: string): (r: string)
    ensures MarkupFree(r)
    ensures |r| >= |s|
  {
    if s == [] then [] else Entity(s[0]) + Escape(s[1..])
  }

  /** A string without the five characters comes back unchanged, and only such
      a string does. */
  lemma {:induction false} EscapeUnchangedIff(s: string)
    ensures Escape(s) == s <==> forall i :: 0 <= i < |s| ==> !IsSpecial(s[i])
  {
    if s != [] {
      EscapeUnchangedIff(s[1..]);
      if IsSpecial(s[0]) {
        assert |Escape(s)| > |s|;
      } else {
        assert Escape(s) == [s[0]] + Escape(s[1..]);
        if Escape(s) == s {
          assert Escape(s[1..]) == s[1..];
        }
        assert forall i :: 0 <= i < |s[1..]| ==> s[1..][i] == s[i + 1];
        assert s == [s[0]] + s[1..];
      }
    }
  }

  /** Decodes the five entities `escapeHtml` produces, as a browser does when
      it reads the text back; every other character is copied. */
  function Unescape(s: string): (r: string)
    decreases |s|
  {
    if s == [] then []
    else if "&amp;" <= s then "&" + Unescape(s[5..])
    else if "&lt;" <= s then "<" + Unescape(s[4..])
    else if "&gt;" <= s then ">" + Unescape(s[4..])
    else if "&quot;" <= s then "\"" + Unescape(s[6..])
    else if "&#39;" <= s then "'" + Unescape(s[5..])
    else [s[0]] + Unescape(s[1..])
  }

  lemma UnescapeEntity(c: char, rest: string)
    ensures Unescape(Entity(c) + rest) == [c] + Unescape(rest)
  {
    var s := Entity(c) + rest;
    assert s[|Entity(c)|..] == rest;
    if c == '&' {
      assert "&amp;" <= s;
    } else if c == '<' {
      assert s[1] == 'l';
      assert "&lt;" <= s;
    } else if c == '>' {
      assert s[1] == 'g';
      assert "&gt;" <= s;
    } else if c == '"' {
      assert s[1] == 'q';
      assert "&quot;" <= s;
    } else if c == '\'' {
      assert s[1] == '#';
      assert "&#39;" <= s;
    } else {
      assert s[0] == c;
    }
  }

  /** Escaping loses nothing: the text a reader sees is the original string. */
  lemma {:induction false} EscapeRoundTrip(s: string)
    ensures Unescape(Escape(s)) == s
  {
    if s != [] {
      UnescapeEntity(s[0], Escape(s[1..]));
      EscapeRoundTrip(s[1..]);
    }
  }

  /** Escaping is one-to-one: two different strings never render alike. */
  lemma EscapeInjective(s: string, t: string)
    requires Escape(s) == Escape(t)
    ensures s == t
  {
    EscapeRoundTrip(s);
    EscapeRoundTrip(t);
  }
}
