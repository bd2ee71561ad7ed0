/** Plain string vocabulary shared by the chat widget and the projects page:
    an optional value, contiguous substrings, the layout of a joined list,
    and the two small scanners (prefix removal, split at the first
    occurrence of a character) that read a formatted line back. */
module Text {

  /** A value that may be absent (`undefined` or `null` in the source). */
  datatype Option<+T> = None | Some(value: T) {

    predicate IsFailure() {
      None?
    }

    function PropagateFailure<U>(): Option<U>
      requires None?
    {
      None
    }

    function Extract(): T
      requires Some?
    {
      value
    }
  }

  /** `kw` sits in `s` starting at index `i`. */
  ghost predicate OccursAt(s: string, kw: string, i: int) {
    0 <= i && i + |kw| <= |s| && s[i..i + |kw|] == kw
  }

  /** `kw` is a contiguous substring of `s` (the empty string is one of every string). */
  ghost predicate IsSubstring(kw: string, s: string) {
    exists i :: OccursAt(s, kw, i)
  }

  /** An occurrence in `s` is either at the front or an occurrence in `s[1..]` shifted by one. */
  lemma SubstringStep(s: string, kw: string)
    requires |s| > 0
    ensures IsSubstring(kw, s) <==> OccursAt(s, kw, 0) || IsSubstring(kw, s[1..])
  {
    if IsSubstring(kw, s) && !OccursAt(s, kw, 0) {
      var i :| OccursAt(s, kw, i);
      assert s[1..][i - 1..i - 1 + |kw|] == s[i..i + |kw|];
      assert OccursAt(s[1..], kw, i - 1);
    }
    if IsSubstring(kw, s[1..]) {
      var i :| OccursAt(s[1..], kw, i);
      assert s[1..][i..i + |kw|] == s[i + 1..i + 1 + |kw|];
      assert OccursAt(s, kw, i + 1);
    }
  }

  /** Start of the `k`-th part when `parts` are laid out one after another with
      `sep` after each of them. */
  function Offset(parts: seq<string>, sep: string, k: nat): nat
    requires k <= |parts|
  {
    if k == 0 then 0 else Offset(parts, sep, k - 1) + |parts[k - 1]| + |sep|
  }

  /** `t` is exactly the parts in order with one `sep` between neighbours:
      a positional description of a joined list, independent of how it is built. */
  ghost predicate JoinedBy(t: string, parts: seq<string>, sep: string) {
    if |parts| == 0 then |t| == 0
    else
      && |t| + |sep| == Offset(parts, sep, |parts|)
      && (forall k :: 0 <= k < |parts| ==> PartAt(t, parts, sep, k))
      && (forall k :: 0 <= k < |parts| - 1 ==> SeparatorAfter(t, parts, sep, k))
  }

  /** The `k`-th part is written at its offset in `t`. */
  ghost predicate PartAt(t: string, parts: seq<string>, sep: string, k: nat)
    requires k < |parts|
  {
    var o := Offset(parts, sep, k);
    o + |parts[k]| <= |t| && t[o..o + |parts[k]|] == parts[k]
  }

  /** A separator is written right after the `k`-th part in `t`. */
  ghost predicate SeparatorAfter(t: string, parts: seq<string>, sep: string, k: nat)
    requires k < |parts|
  {
    var o := Offset(parts, sep, k) + |parts[k]|;
    o + |sep| <= |t| && t[o..o + |sep|] == sep
  }

  /** Offsets in the tail are the offsets in the whole list minus the first part and its separator. */
  lemma {:induction false} OffsetShift(parts: seq<string>, sep: string, k: nat)
    requires 0 < |parts| && k < |parts|
    ensures Offset(parts, sep, k + 1) == |parts[0]| + |sep| + Offset(parts[1..], sep, k)
  {
    if k > 0 {
      OffsetShift(parts, sep, k - 1);
    }
  }

  /** Positions in a text laid out from two or more parts, seen from the text after
      the first part and its separator. */
  lemma ShiftedSlots(t: string, parts: seq<string>, sep: string, k: nat)
    requires 2 <= |parts| && k < |parts| - 1
    requires |parts[0]| + |sep| <= |t|
    ensures PartAt(t, parts, sep, k + 1) <==> PartAt(t[|parts[0]| + |sep|..], parts[1..], sep, k)
    ensures SeparatorAfter(t, parts, sep, k + 1) <==> SeparatorAfter(t[|parts[0]| + |sep|..], parts[1..], sep, k)
  {
    var h := |parts[0]| + |sep|;
    var u := t[h..];
    OffsetShift(parts, sep, k);
    var o := Offset(parts[1..], sep, k);
    assert parts[k + 1] == parts[1..][k];
    if o + |parts[k + 1]| <= |u| {
      assert t[h + o..h + o + |parts[k + 1]|] == u[o..o + |parts[k + 1]|];
    }
    if o + |parts[k + 1]| + |sep| <= |u| {
      assert t[h + o + |parts[k + 1]|..h + o + |parts[k + 1]| + |sep|]
          == u[o + |parts[k + 1]|..o + |parts[k + 1]| + |sep|];
    }
  }

  /** A text laid out from two or more parts is the first part, a separator, and
      a text laid out from the remaining parts. */
  lemma JoinedByCons(t: string, parts: seq<string>, sep: string)
    requires |parts| >= 2
    ensures JoinedBy(t, parts, sep) <==>
      && |parts[0]| + |sep| <= |t|
      && t[..|parts[0]|] == parts[0]
      && t[|parts[0]|..|parts[0]| + |sep|] == sep
      && JoinedBy(t[|parts[0]| + |sep|..], parts[1..], sep)
  {
    if JoinedBy(t, parts, sep) {
      JoinedByHead(t, parts, sep);
    }
    var h := |parts[0]| + |sep|;
    if && h <= |t| && t[..|parts[0]|] == parts[0] && t[|parts[0]|..h] == sep
       && JoinedBy(t[h..], parts[1..], sep)
    {
      JoinedByFromHead(t, parts, sep);
    }
  }

  /** A layout of two or more parts starts with the first part and a separator, and
      the rest of the text is a layout of the remaining parts. */
  lemma JoinedByHead(t: string, parts: seq<string>, sep: string)
    requires |parts| >= 2 && JoinedBy(t, parts, sep)
    ensures |parts[0]| + |sep| <= |t|
    ensures t[..|parts[0]|] == parts[0]
    ensures t[|parts[0]|..|parts[0]| + |sep|] == sep
    ensures JoinedBy(t[|parts[0]| + |sep|..], parts[1..], sep)
  {
    var h := |parts[0]| + |sep|;
    var rest := parts[1..];
    OffsetShift(parts, sep, |rest|);
    assert Offset(parts, sep, 1) == h;
    assert PartAt(t, parts, sep, 0) && SeparatorAfter(t, parts, sep, 0);
    forall k | 0 <= k < |rest|
      ensures PartAt(t[h..], rest, sep, k)
    {
      ShiftedSlots(t, parts, sep, k);
    }
    forall k | 0 <= k < |rest| - 1
      ensures SeparatorAfter(t[h..], rest, sep, k)
    {
      ShiftedSlots(t, parts, sep, k);
    }
  }

  /** The first part, a separator and a layout of the remaining parts make a layout
      of all the parts. */
  lemma JoinedByFromHead(t: string, parts: seq<string>, sep: string)
    requires |parts| >= 2
    requires |parts[0]| + |sep| <= |t|
    requires t[..|parts[0]|] == parts[0]
    requires t[|parts[0]|..|parts[0]| + |sep|] == sep
    requires JoinedBy(t[|parts[0]| + |sep|..], parts[1..], sep)
    ensures JoinedBy(t, parts, sep)
  {
    var rest := parts[1..];
    OffsetShift(parts, sep, |rest|);
    assert Offset(parts, sep, 1) == |parts[0]| + |sep|;
    forall k | 0 <= k < |parts|
      ensures PartAt(t, parts, sep, k)
    {
      if k > 0 {
        ShiftedSlots(t, parts, sep, k - 1);
      }
    }
    forall k | 0 <= k < |parts| - 1
      ensures SeparatorAfter(t, parts, sep, k)
    {
      if k > 0 {
        ShiftedSlots(t, parts, sep, k - 1);
      }
    }
  }


  /** `Some(rest)` exactly when `s` is `p + rest`. */
  function StripPrefix(p: string, s: string): (r: Option<string>)
    ensures r.Some? ==> s == p + r.value
    ensures r.None? ==> forall rest :: s != p + rest
  {
    if |p| <= |s| && s[..|p|] == p then
      assert s == p + s[|p|..];
      Some(s[|p|..])
    else
      assert forall rest :: (p + rest)[..|p|] == p;
      None
  }

  /** Splits `s` around the first occurrence of `c`; `None` when `c` does not occur. */
  function SplitAt(s: string, c: char): (r: Option<(string, string)>)
    ensures r.Some? ==> c !in r.value.0 && s == r.value.0 + [c] + r.value.1
    ensures r.None? <==> c !in s
  {
    if |s| == 0 then None
    else if s[0] == c then
      assert s == [] + [c] + s[1..];
      Some(([], s[1..]))
    else
      match SplitAt(s[1..], c)
      case None => None
      case Some(p) =>
        assert s == [s[0]] + s[1..];
        Some(([s[0]] + p.0, p.1))
  }

  /** Reading back a prefix that was written. */
  lemma StripPrefixOf(p: string, rest: string)
    ensures StripPrefix(p, p + rest) == Some(rest)
  {
    assert (p + rest)[..|p|] == p;
    assert (p + rest)[|p|..] == rest;
  }

  /** Splitting a text written as `a`, a delimiter `c` that `a` does not contain,
      and anything after it gives back `a` and that remainder. */
  lemma {:induction false} SplitAtOf(a: string, c: char, b: string)
    requires c !in a
    ensures SplitAt(a + [c] + b, c) == Some((a, b))
  {
    var s := a + [c] + b;
    if |a| > 0 {
      assert s[0] == a[0] != c;
      assert s[1..] == a[1..] + [c] + b;
      SplitAtOf(a[1..], c, b);
      assert [a[0]] + a[1..] == a;
    }
  }
}
