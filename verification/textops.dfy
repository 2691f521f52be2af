/** The string operations the crawler relies on, written out over `seq<char>`:
    Python's `str.strip()`, BeautifulSoup's `get_text(strip=True)`,
    `" ".join(...)` and the substring test `pattern in url`. */
module TextOps {

  /** Python's `str.isspace()` for one character: the ASCII controls TAB..CR,
      the separators FS..US, SPACE, and the Unicode space characters. */
  predicate IsSpace(c: char) {
    var n := c as int;
    || (9 <= n <= 13)
    || (28 <= n <= 32)
    || n == 0x85 || n == 0xA0 || n == 0x1680
    || (0x2000 <= n <= 0x200A)
    || n == 0x2028 || n == 0x2029 || n == 0x202F || n == 0x205F || n == 0x3000
  }

  predicate AllSpace(s: string) {
    forall i :: 0 <= i < |s| ==> IsSpace(s[i])
  }

  /** Neither the first nor the last character of `r` is white space. */
  predicate NoEdgeSpace(r: string) {
    r == [] || (!IsSpace(r[0]) && !IsSpace(r[|r| - 1]))
  }

  /** `r` sits at offset `k` of `s`, and everything around it is white space. */
  predicate SpacePadded(s: string, r: string, k: int) {
    && 0 <= k && k + |r| <= |s|
    && s[k..k + |r|] == r
    && AllSpace(s[..k])
    && AllSpace(s[k + |r|..])
  }

  function StripLeft(s: string): (r: string)
    ensures |r| <= |s| && r == s[|s| - |r|..]
    ensures AllSpace(s[..|s| - |r|])
    ensures r == [] || !IsSpace(r[0])
  {
    if |s| > 0 && IsSpace(s[0]) then
      var r := StripLeft(s[1..]);
      var n := |s| - |r|;
      assert s[1..][n - 1..] == s[n..];
      assert forall i :: 1 <= i < n ==> s[..n][i] == s[1..][..n - 1][i - 1];
      r
    else
      assert s[..0] == [];
      s
  }

  function StripRight(s: string): (r: string)
    ensures |r| <= |s| && r == s[..|r|]
    ensures AllSpace(s[|r|..])
    ensures r == [] || !IsSpace(r[|r| - 1])
  {
    if |s| > 0 && IsSpace(s[|s| - 1]) then
      var r := StripRight(s[..|s| - 1]);
      assert s[..|s| - 1][..|r|] == s[..|r|];
      assert s[|r|..] == s[..|s| - 1][|r|..] + [s[|s| - 1]];
      r
    else
      assert s[|s|..] == [];
      s
  }

  /** Python's `s.strip()`: `s` with its leading and trailing white space
      removed. */
  function Strip(s: string): (r: string)
    ensures NoEdgeSpace(r)
    ensures SpacePadded(s, r, |s| - |StripLeft(s)|)
  {
    var l := StripLeft(s);
    var r := StripRight(l);
    StripComposes(s, l, r);
    r
  }

  /** Stripping the right end of a left-stripped string leaves a string padded
      by white space on both sides. */
  lemma StripComposes(s: string, l: string, r: string)
    requires |l| <= |s| && l == s[|s| - |l|..] && AllSpace(s[..|s| - |l|])
    requires l == [] || !IsSpace(l[0])
    requires |r| <= |l| && r == l[..|r|] && AllSpace(l[|r|..])
    requires r == [] || !IsSpace(r[|r| - 1])
    ensures NoEdgeSpace(r)
    ensures SpacePadded(s, r, |s| - |l|)
  {
  }

  /** White-space padding determines the padded text: there is only one
      string without edge white space that `s` pads, and it is `Strip(s)`. */
  lemma StripUnique(s: string, r: string, k: int)
    requires NoEdgeSpace(r) && SpacePadded(s, r, k)
    ensures r == Strip(s)
  {
    var r2 := Strip(s);
    var k2 := |s| - |StripLeft(s)|;
    PaddedUnique(s, r, k, r2, k2);
  }

  /** Two strings without edge white space that the same string pads are
      equal. */
  lemma PaddedUnique(s: string, r1: string, k1: int, r2: string, k2: int)
    requires NoEdgeSpace(r1) && SpacePadded(s, r1, k1)
    requires NoEdgeSpace(r2) && SpacePadded(s, r2, k2)
    ensures r1 == r2
  {
  }

  /** Stripping twice removes nothing more than stripping once. */
  lemma StripIdempotent(s: string)
    ensures Strip(Strip(s)) == Strip(s)
  {
  }

  /** The text fragments of one element, in document order. */
  type Text = seq<string>

  /** BeautifulSoup's `get_text(strip=True)`: every text fragment stripped,
      the fragments concatenated with the empty separator. */
  function GetText(t: Text): (r: string)
    ensures NoEdgeSpace(r)
  {
    if |t| == 0 then "" else
      var head := Strip(t[0]);
      var rest := GetText(t[1..]);
      assert head + rest == [] || (head + rest)[0] == (if head == [] then rest[0] else head[0]);
      assert head + rest == [] || (head + rest)[|head + rest| - 1] == (if rest == [] then head[|head| - 1] else rest[|rest| - 1]);
      head + rest
  }

  /** A single fragment's text is that fragment stripped. */
  lemma GetTextOne(x: string)
    ensures GetText([x]) == Strip(x)
  {
    assert [x][1..] == [];
  }

  lemma ConcatAssoc(a: string, b: string, c: string)
    ensures a + (b + c) == (a + b) + c
  {
  }

  /** The text of a fragment followed by more fragments. */
  lemma GetTextCons(x: string, t: Text)
    ensures GetText([x] + t) == Strip(x) + GetText(t)
  {
    assert ([x] + t)[0] == x && ([x] + t)[1..] == t;
  }

  /** The text of consecutive runs of fragments is their texts concatenated:
      fragments are stripped one by one and joined with no separator. */
  lemma {:induction false} GetTextAppend(t: Text, u: Text)
    ensures GetText(t + u) == GetText(t) + GetText(u)
  {
    if |t| == 0 {
      assert t + u == u;
    } else {
      var x, rest := t[0], t[1..];
      assert t == [x] + rest && t + u == [x] + (rest + u);
      GetTextAppend(rest, u);
      GetTextCons(x, rest + u);
      GetTextCons(x, rest);
      ConcatAssoc(Strip(x), GetText(rest), GetText(u));
    }
  }

  /** `" ".join(parts)`. */
  function JoinSpace(parts: seq<string>): string {
    if |parts| == 0 then ""
    else if |parts| == 1 then parts[0]
    else parts[0] + " " + JoinSpace(parts[1..])
  }

  /** `s.split(" ")`: the pieces between consecutive single spaces. */
  function SplitSpace(s: string): (r: seq<string>)
    ensures |r| >= 1
  {
    if |s| == 0 then [""]
    else
      var rest := SplitSpace(s[1..]);
      if s[0] == ' ' then [""] + rest
      else [[s[0]] + rest[0]] + rest[1..]
  }

  predicate NoSpaceChar(w: string) {
    forall i :: 0 <= i < |w| ==> w[i] != ' '
  }

  lemma {:induction false} SplitWordPrefix(w: string, s: string)
    requires NoSpaceChar(w)
    ensures SplitSpace(w + s) == [w + SplitSpace(s)[0]] + SplitSpace(s)[1..]
    decreases |w|
  {
    if |w| > 0 {
      assert (w + s)[0] == w[0];
      assert (w + s)[1..] == w[1..] + s;
      SplitWordPrefix(w[1..], s);
      var rest := SplitSpace(w[1..] + s);
      assert rest[0] == w[1..] + SplitSpace(s)[0];
      assert rest[1..] == SplitSpace(s)[1..];
      assert [w[0]] + (w[1..] + SplitSpace(s)[0]) == w + SplitSpace(s)[0];
    } else {
      assert w + s == s;
      assert w + SplitSpace(s)[0] == SplitSpace(s)[0];
    }
  }

  /** Joining pieces that contain no space and splitting the result on the
      space gives back the pieces: the joined content keeps the paragraph
      boundaries as long as no paragraph contains a space itself. */
  lemma {:induction false} JoinSplitRoundTrip(parts: seq<string>)
    requires |parts| >= 1
    requires forall i :: 0 <= i < |parts| ==> NoSpaceChar(parts[i])
    ensures SplitSpace(JoinSpace(parts)) == parts
  {
    if |parts| == 1 {
      SplitWordPrefix(parts[0], "");
      assert parts[0] + "" == parts[0];
    } else {
      var rest := JoinSpace(parts[1..]);
      JoinSplitRoundTrip(parts[1..]);
      assert JoinSpace(parts) == parts[0] + (" " + rest);
      SplitWordPrefix(parts[0], " " + rest);
      assert (" " + rest)[1..] == rest;
      assert parts[0] + "" == parts[0];
      assert parts == [parts[0]] + parts[1..];
    }
  }

  /** The joined text cannot tell no pieces apart from one empty piece. */
  lemma JoinEmptyAmbiguous()
    ensures JoinSpace([]) == JoinSpace([""]) == ""
  {
  }

  /** `pat` occurs in `s` starting at index `i`. */
  predicate OccursAt(s: string, pat: string, i: int) {
    0 <= i && i + |pat| <= |s| && s[i..i + |pat|] == pat
  }

  /** Python's `pat in s`, computed by trying each start position in turn. */
  predicate Contains(s: string, pat: string)
    decreases |s|
  {
    pat <= s || (|s| > 0 && Contains(s[1..], pat))
  }

  /** The computed substring test agrees with "there is an index where `pat`
      occurs", in both directions. */
  lemma {:induction false} ContainsIff(s: string, pat: string)
    ensures Contains(s, pat) <==> exists i :: OccursAt(s, pat, i)
    decreases |s|
  {
    if pat <= s {
      assert OccursAt(s, pat, 0);
    } else if |s| == 0 {
      assert forall i :: !OccursAt(s, pat, i);
    } else {
      ContainsIff(s[1..], pat);
      assert !OccursAt(s, pat, 0) by {
        assert OccursAt(s, pat, 0) ==> pat <= s;
      }
      if i :| OccursAt(s[1..], pat, i) {
        OccursShift(s, pat, i);
      }
      if i :| OccursAt(s, pat, i) {
        OccursShift(s, pat, i - 1);
      }
    }
  }

  /** An occurrence in the tail of `s` is an occurrence in `s` one position
      further on. */
  lemma OccursShift(s: string, pat: string, i: int)
    requires |s| > 0 && i >= 0
    ensures OccursAt(s[1..], pat, i) <==> OccursAt(s, pat, i + 1)
  {
  }
}
