/** The handful of JavaScript built-ins the widget and the projects page rely
    on, each with the meaning the code depends on: truthiness of an optional
    string, `a || b`, `String.prototype.toLowerCase`, `includes` and `join`. */
module Js {
  import opened Text

  /** JavaScript truthiness of an optional string: absent, `null` and `""` are falsy. */
  predicate Truthy(o: Option<string>) {
    o.Some? && |o.value| > 0
  }

  /** `o || fallback` on an optional string. */
  function OrElse(o: Option<string>, fallback: string): (r: string)
    ensures Truthy(o) ==> r == o.value
    ensures !Truthy(o) ==> r == fallback
    ensures |r| > 0 <==> Truthy(o) || |fallback| > 0
  {
    if Truthy(o) then o.value else fallback
  }

  /** Upper-case letters that `toLowerCase` maps one-to-one onto a letter 32 code points
      higher: ASCII `A`..`Z` and Latin-1 `À`..`Þ` except the multiplication sign. */
  predicate IsUpper(c: char) {
    ('A' <= c <= 'Z') || ('À' <= c <= 'Þ' && c != '×')
  }

  function LowerChar(c: char): (r: char)
    ensures !IsUpper(r)
    ensures !IsUpper(c) ==> r == c
  {
    if IsUpper(c) then (c as int + 32) as char else c
  }

  /** `s.toLowerCase()`, letter by letter. */
  function ToLowerCase(s: string): (r: string)
    ensures |r| == |s|
    ensures forall i :: 0 <= i < |s| ==> r[i] == LowerChar(s[i])
  {
    seq(|s|, i requires 0 <= i < |s| => LowerChar(s[i]))
  }

  /** Lowering leaves no upper-case letter behind, so lowering twice is lowering once,
      and a text without upper-case letters (every keyword) is its own lowering. */
  lemma LowerCaseIdempotent(s: string)
    ensures forall i :: 0 <= i < |s| ==> !IsUpper(ToLowerCase(s)[i])
    ensures ToLowerCase(ToLowerCase(s)) == ToLowerCase(s)
    ensures (forall i :: 0 <= i < |s| ==> !IsUpper(s[i])) ==> ToLowerCase(s) == s
  {
  }

  /** `s.includes(kw)`: scans `s` from the left for a copy of `kw`. */
  function Includes(s: string, kw: string): (r: bool)
    ensures r <==> IsSubstring(kw, s)
    decreases |s|
  {
    if |kw| <= |s| && s[..|kw|] == kw then
      assert OccursAt(s, kw, 0);
      true
    else if |s| == 0 then
      false
    else
      SubstringStep(s, kw);
      Includes(s[1..], kw)
  }

  /** `parts.join(sep)`: no separator for zero or one part. The text is as long as
      the parts plus one separator between each pair of neighbours. */
  function Join(parts: seq<string>, sep: string): (r: string)
    ensures |parts| == 0 ==> r == ""
    ensures |parts| > 0 ==> |r| + |sep| == Offset(parts, sep, |parts|)
    decreases |parts|
  {
    if |parts| == 0 then ""
    else if |parts| == 1 then parts[0]
    else
      OffsetShift(parts, sep, |parts| - 1);
      parts[0] + sep + Join(parts[1..], sep)
  }

  /** A joined text starts with the first part and ends with the last. */
  lemma {:induction false} JoinEnds(parts: seq<string>, sep: string)
    requires |parts| > 0
    ensures |parts[0]| <= |Join(parts, sep)| && Join(parts, sep)[..|parts[0]|] == parts[0]
    ensures var last := parts[|parts| - 1]; var t := Join(parts, sep);
      |last| <= |t| && t[|t| - |last|..] == last
    decreases |parts|
  {
    if |parts| > 1 {
      JoinEnds(parts[1..], sep);
      var u := Join(parts[1..], sep);
      var last := parts[|parts| - 1];
      assert parts[1..][|parts[1..]| - 1] == last;
      var t := parts[0] + sep + u;
      assert Join(parts, sep) == t;
      assert t[|t| - |last|..] == u[|u| - |last|..];
    }
  }

  /** `join` writes the parts at their offsets with a separator between neighbours,
      and that layout determines the text: the two descriptions agree on every text. */
  lemma {:induction false} JoinLayout(parts: seq<string>, sep: string, t: string)
    ensures JoinedBy(t, parts, sep) <==> t == Join(parts, sep)
    decreases |parts|
  {
    if |parts| == 1 {
      assert Offset(parts, sep, 1) == |parts[0]| + |sep|;
      if JoinedBy(t, parts, sep) {
        assert PartAt(t, parts, sep, 0);
        assert t == t[0..|parts[0]|];
      }
      if t == Join(parts, sep) {
        assert t[0..|parts[0]|] == parts[0];
        assert PartAt(t, parts, sep, 0);
      }
    } else if |parts| >= 2 {
      var h := |parts[0]| + |sep|;
      JoinedByCons(t, parts, sep);
      if h <= |t| {
        JoinLayout(parts[1..], sep, t[h..]);
        if JoinedBy(t, parts, sep) {
          assert t == t[..|parts[0]|] + t[|parts[0]|..h] + t[h..];
        }
      }
      if t == Join(parts, sep) {
        var u := Join(parts[1..], sep);
        assert t == parts[0] + sep + u;
        assert t[..|parts[0]|] == parts[0];
        assert t[|parts[0]|..h] == sep;
        assert t[h..] == u;
        JoinLayout(parts[1..], sep, u);
      }
    }
  }
}
