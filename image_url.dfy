/**
 * The thumbnail-to-original rewrite of Pinterest image URLs: the leftmost
 * size segment `/<digits>x<digits>/` (the second run may be empty) becomes
 * `/originals/`, with the regular expression `/\/\d+x\d*\//` located the way
 * a backtracking matcher locates it.
 */
module ImageUrl {
  import opened JsStrings

  /** A URL as the scraper receives it: possibly `null` or `undefined`. */
  datatype MaybeUrl = Null | Undefined | Present(text: string)

  predicate Falsy(u: MaybeUrl) {
    u.Null? || u.Undefined? || u.text == ""
  }

  const Originals: string := "/originals/"

  /** The literal thumbnail markers of the fallback loop. */
  const ThumbnailPatterns: seq<string> := ["/60x60/", "/236x/", "/474x/", "/736x/"]

  /** The end of the maximal run of decimal digits starting at `i`. */
  function DigitRun(t: string, i: nat): (j: nat)
    requires i <= |t|
    ensures i <= j <= |t|
    ensures forall k :: i <= k < j ==> IsDigit(t[k])
    ensures j < |t| ==> !IsDigit(t[j])
    decreases |t| - i
  {
    if i == |t| || !IsDigit(t[i]) then i else DigitRun(t, i + 1)
  }

  /**
   * `t` begins with a size segment. `\d+` and `\d*` can only match maximal
   * digit runs here, since what follows each of them (`x`, `/`) is not a digit.
   */
  predicate SegmentStart(t: string) {
    |t| > 1 && t[0] == '/' &&
    var j := DigitRun(t, 1);
    1 < j < |t| && t[j] == 'x' &&
    var k := DigitRun(t, j + 1);
    k < |t| && t[k] == '/'
  }

  /** The length of the size segment at the start of `t`. */
  function SegmentLength(t: string): (n: nat)
    requires SegmentStart(t)
    ensures 4 <= n <= |t| && t[n - 1] == '/'
  {
    DigitRun(t, DigitRun(t, 1) + 1) + 1
  }

  predicate SegmentAt(s: string, i: nat) {
    i <= |s| && SegmentStart(s[i..])
  }

  /** The index just past the size segment at `i`. */
  function SegmentEnd(s: string, i: nat): (e: nat)
    requires SegmentAt(s, i)
    ensures i + 4 <= e <= |s| && s[e - 1] == '/'
  {
    i + SegmentLength(s[i..])
  }

  /** The leftmost size segment at or after `from`. */
  function FirstSegment(s: string, from: nat): (r: Option<nat>)
    requires from <= |s|
    ensures r.Some? ==> from <= r.value < |s| && SegmentAt(s, r.value)
    ensures r.Some? ==> forall q :: from <= q < r.value ==> !SegmentAt(s, q)
    ensures r.None? ==> forall q :: from <= q <= |s| ==> !SegmentAt(s, q)
    decreases |s| - from
  {
    if from == |s| then None
    else if SegmentAt(s, from) then Some(from)
    else FirstSegment(s, from + 1)
  }

  /** `s.match(/\/\d+x\d*\//)` is truthy. */
  predicate HasSegment(s: string) {
    FirstSegment(s, 0).Some?
  }

  /** `s.replace(/\/\d+x\d*\//, '/originals/')`: the leftmost segment only. */
  function ReplaceSegment(s: string): string {
    match FirstSegment(s, 0)
    case None => s
    case Some(i) => s[..i] + Originals + s[SegmentEnd(s, i)..]
  }

  /** The first index at or after `from` where `pat` occurs. */
  function FirstOccurrence(s: string, pat: string, from: nat): (r: Option<nat>)
    requires from <= |s|
    ensures r.Some? ==> from <= r.value && OccursAt(s, pat, r.value)
    ensures r.Some? ==> forall q :: from <= q < r.value ==> !OccursAt(s, pat, q)
    ensures r.None? ==> forall q :: from <= q <= |s| ==> !OccursAt(s, pat, q)
    decreases |s| - from
  {
    if OccursAt(s, pat, from) then Some(from)
    else if from == |s| then None
    else FirstOccurrence(s, pat, from + 1)
  }

  /** `s.replace(pat, rep)` with a string pattern and a replacement free of `$`. */
  function ReplaceLiteral(s: string, pat: string, rep: string): string {
    match FirstOccurrence(s, pat, 0)
    case None => s
    case Some(i) => s[..i] + rep + s[i + |pat|..]
  }

  /** The fallback loop over the literal markers. */
  function LegacyRewrite(s: string, patterns: seq<string>): string
    decreases |patterns|
  {
    if patterns == [] then s
    else if Contains(s, patterns[0]) then ReplaceLiteral(s, patterns[0], Originals)
    else LegacyRewrite(s, patterns[1..])
  }

  /** `transformImageUrl` as written, fallback loop included. */
  function TransformImageUrl(u: MaybeUrl): MaybeUrl {
    if Falsy(u) then u
    else if HasSegment(u.text) then Present(ReplaceSegment(u.text))
    else Present(LegacyRewrite(u.text, ThumbnailPatterns))
  }

  // ---------------------------------------------------------------------
  // The fallback loop is dead

  lemma {:induction false} DigitRunIs(t: string, i: nat, j: nat)
    requires i <= j <= |t|
    requires forall k :: i <= k < j ==> IsDigit(t[k])
    requires j < |t| ==> !IsDigit(t[j])
    ensures DigitRun(t, i) == j
    decreases j - i
  {
    if i < j {
      DigitRunIs(t, i + 1, j);
    }
  }

  /** A text starting with `/<d>x<d'>/`, for digit strings `d` (non-empty) and `d'`. */
  lemma SegmentOfDigits(t: string, d: string, d2: string)
    requires d != [] && forall k :: 0 <= k < |d| ==> IsDigit(d[k])
    requires forall k :: 0 <= k < |d2| ==> IsDigit(d2[k])
    requires |t| >= |d| + |d2| + 3 && t[..|d| + |d2| + 3] == "/" + d + "x" + d2 + "/"
    ensures SegmentStart(t)
  {
    var j := |d| + 1;
    var k := j + 1 + |d2|;
    assert t[0] == '/' && t[j] == 'x' && t[k] == '/';
    assert forall q :: 1 <= q < j ==> t[q] == d[q - 1];
    assert forall q :: j + 1 <= q < k ==> t[q] == d2[q - j - 1];
    DigitRunIs(t, 1, j);
    DigitRunIs(t, j + 1, k);
  }

  /** Every literal marker of the fallback loop is itself a size segment. */
  lemma PatternIsSegment(s: string, n: nat, i: nat)
    requires n < |ThumbnailPatterns|
    ensures OccursAt(s, ThumbnailPatterns[n], i) ==> SegmentAt(s, i)
  {
    if !OccursAt(s, ThumbnailPatterns[n], i) {
      return;
    }
    var p := ThumbnailPatterns[n];
    var t := s[i..];
    assert t[..|p|] == p;
    if n == 0 {
      assert p == "/" + "60" + "x" + "60" + "/";
      SegmentOfDigits(t, "60", "60");
    } else if n == 1 {
      assert p == "/" + "236" + "x" + "" + "/";
      SegmentOfDigits(t, "236", "");
    } else if n == 2 {
      assert p == "/" + "474" + "x" + "" + "/";
      SegmentOfDigits(t, "474", "");
    } else {
      assert p == "/" + "736" + "x" + "" + "/";
      SegmentOfDigits(t, "736", "");
    }
  }

  lemma {:induction false} LegacyRewriteUnchanged(s: string, n: nat)
    requires n <= |ThumbnailPatterns|
    requires !HasSegment(s)
    ensures LegacyRewrite(s, ThumbnailPatterns[n..]) == s
    decreases |ThumbnailPatterns| - n
  {
    if n < |ThumbnailPatterns| {
      var pats := ThumbnailPatterns[n..];
      assert pats[0] == ThumbnailPatterns[n] && pats[1..] == ThumbnailPatterns[n + 1..];
      forall i: nat | i <= |s|
        ensures !OccursAt(s, pats[0], i)
      {
        PatternIsSegment(s, n, i);
      }
      LegacyRewriteUnchanged(s, n + 1);
    }
  }

  /** The fallback loop can never change a URL: it runs only when no size segment exists, and each marker is one. */
  lemma LegacyLoopIsDead(s: string)
    requires !HasSegment(s)
    ensures LegacyRewrite(s, ThumbnailPatterns) == s
  {
    assert ThumbnailPatterns[0..] == ThumbnailPatterns;
    LegacyRewriteUnchanged(s, 0);
  }

  // ---------------------------------------------------------------------
  // What the rewrite does

  /** Falsy input comes back unchanged; otherwise exactly the leftmost size segment is replaced, or nothing. */
  lemma TransformSpec(u: MaybeUrl)
    ensures Falsy(u) ==> TransformImageUrl(u) == u
    ensures !Falsy(u) && !HasSegment(u.text) ==> TransformImageUrl(u) == u
    ensures !Falsy(u) && HasSegment(u.text) ==>
      var s := u.text;
      var i := FirstSegment(s, 0).value;
      && TransformImageUrl(u) == Present(s[..i] + Originals + s[SegmentEnd(s, i)..])
      && (forall q :: 0 <= q < i ==> !SegmentAt(s, q))
  {
    if !Falsy(u) && !HasSegment(u.text) {
      LegacyLoopIsDead(u.text);
    }
  }

  /** The text before the replaced segment is kept, so the result has length `|s| - (e - i) + 11`. */
  lemma ReplaceSegmentShape(s: string)
    requires HasSegment(s)
    ensures var i := FirstSegment(s, 0).value; var e := SegmentEnd(s, i);
      var r := ReplaceSegment(s);
      |r| == |s| - (e - i) + |Originals| && r[..i] == s[..i] &&
      r[i..i + |Originals|] == Originals && r[i + |Originals|..] == s[e..]
  {
  }

  /** A size segment that starts before the end of the rewritten prefix would already have been a segment of the original before `i`. */
  lemma {:induction false} NoSegmentBeforeOriginals(s: string)
    requires HasSegment(s)
    ensures var i := FirstSegment(s, 0).value;
      forall q :: 0 <= q < i + |Originals| - 1 ==> !SegmentAt(ReplaceSegment(s), q)
  {
    var i := FirstSegment(s, 0).value;
    var r := ReplaceSegment(s);
    ReplaceSegmentShape(s);
    forall q | 0 <= q < i + |Originals| - 1
      ensures !SegmentAt(r, q)
    {
      if q < i {
        PrefixSegment(s, r, i, q);
        assert !SegmentAt(s, q);
      } else {
        NoSegmentInOriginals(r, i, q);
      }
    }
  }

  /** No size segment starts inside `/originals/`, except perhaps at its closing `/`. */
  lemma NoSegmentInOriginals(r: string, i: nat, q: nat)
    requires i + |Originals| <= |r| && r[i..i + |Originals|] == Originals
    requires i <= q < i + |Originals| - 1
    ensures !SegmentAt(r, q)
  {
    assert r[q..][0] == Originals[q - i];
    if q > i {
      assert r[q..][0] != '/';
    } else {
      assert r[q..][1] == 'o';
    }
  }

  /**
   * A segment of `r` at `q < i`, where `r` and `s` agree before `i` and both
   * have `/` at `i`, is a segment of `s` at `q`: each digit run stops at the
   * `/` at `i` at the latest, and that `/` is not the `x` either.
   */
  lemma PrefixSegment(s: string, r: string, i: nat, q: nat)
    requires q < i < |s| && i < |r| && r[..i] == s[..i] && s[i] == '/' && r[i] == '/'
    ensures SegmentAt(r, q) ==> SegmentAt(s, q)
  {
    if SegmentAt(r, q) {
      var t := r[q..];
      var u := s[q..];
      var j := DigitRun(t, 1);
      var k := DigitRun(t, j + 1);
      assert t[i - q] == '/';
      assert !IsDigit(t[i - q]) && t[i - q] != 'x';
      assert q + k <= i;
      assert forall p :: 0 <= p <= k ==> u[p] == t[p];
      DigitRunIs(u, 1, j);
      DigitRunIs(u, j + 1, k);
    }
  }

  /** From the closing `/` of the inserted text on, the result is the original from the closing `/` of the segment on. */
  lemma ReplacedTail(s: string, i: nat, e: nat, o: nat)
    requires HasSegment(s) && i == FirstSegment(s, 0).value && e == SegmentEnd(s, i) && o == i + |Originals| - 1
    ensures o <= |ReplaceSegment(s)| && ReplaceSegment(s)[o..] == s[e - 1..]
  {
    var r := ReplaceSegment(s);
    ReplaceSegmentShape(s);
    assert r[o] == r[i..i + |Originals|][|Originals| - 1];
    SliceFromNext(r, s, o, e - 1);
  }

  lemma SliceFromNext(a: string, b: string, o: nat, d: nat)
    requires o < |a| && d < |b| && a[o] == b[d] && a[o + 1..] == b[d + 1..]
    ensures a[o..] == b[d..]
  {
    assert a[o..] == [a[o]] + a[o + 1..];
    assert b[d..] == [b[d]] + b[d + 1..];
  }

  /** Two texts that agree from `o` and from `d` on have the same segments there, shifted by `d - o`. */
  lemma SegmentShift(r: string, s: string, o: nat, d: nat, q: nat)
    requires o <= |r| && d <= |s| && r[o..] == s[d..] && o <= q
    ensures SegmentAt(r, q) <==> SegmentAt(s, q - o + d)
  {
    if q <= |r| {
      assert r[q..] == r[o..][q - o..];
      assert s[q - o + d..] == s[d..][q - o..];
    }
  }

  /** Past the inserted text, the result is the original from the last `/` of the replaced segment on. */
  lemma SegmentsAfterOriginals(s: string, q: nat)
    requires HasSegment(s)
    ensures var i := FirstSegment(s, 0).value; var e := SegmentEnd(s, i);
      i + |Originals| - 1 <= q ==>
        (SegmentAt(ReplaceSegment(s), q) <==> SegmentAt(s, q - (i + |Originals| - 1) + (e - 1)))
  {
    var i := FirstSegment(s, 0).value;
    var e := SegmentEnd(s, i);
    var r := ReplaceSegment(s);
    var o := i + |Originals| - 1;
    ReplacedTail(s, i, e, o);
    if o <= q {
      SegmentShift(r, s, o, e - 1, q);
    }
  }

  /** A text with a segment somewhere has a leftmost one. */
  lemma SegmentGivesFirst(r: string, q: nat)
    ensures SegmentAt(r, q) ==> HasSegment(r)
  {
    if SegmentAt(r, q) {
      assert FirstSegment(r, 0).None? ==> !SegmentAt(r, q);
    }
  }

  /** Replacing a size segment always changes the text, since `/originals/` has a letter where a segment has a digit. */
  lemma ReplaceChangesIff(s: string)
    ensures ReplaceSegment(s) == s <==> !HasSegment(s)
  {
    if HasSegment(s) {
      var i := FirstSegment(s, 0).value;
      var r := ReplaceSegment(s);
      ReplaceSegmentShape(s);
      assert IsDigit(s[i..][1]);
      assert r[i + 1] == 'o';
      assert r[i + 1] != s[i + 1];
    }
  }

  /** With no segment from the last `/` of the replaced one on, the result has no segment left. */
  lemma RewrittenIsClean(s: string)
    requires HasSegment(s)
    requires var e := SegmentEnd(s, FirstSegment(s, 0).value);
      forall q :: e - 1 <= q <= |s| ==> !SegmentAt(s, q)
    ensures !HasSegment(ReplaceSegment(s))
  {
    var r := ReplaceSegment(s);
    ReplaceSegmentShape(s);
    NoSegmentBeforeOriginals(s);
    forall q | 0 <= q <= |r| ensures !SegmentAt(r, q) {
      SegmentsAfterOriginals(s, q);
    }
  }

  /** A segment of `s` from index `e - 1` on, where `r` agrees with `s` from `o` on, is a segment of `r`, so `r` has one. */
  lemma SegmentSurvives(s: string, r: string, o: nat, e: nat, q: nat)
    requires o <= |r| && 1 <= e && e - 1 <= q <= |s| && r[o..] == s[e - 1..] && SegmentAt(s, q)
    ensures HasSegment(r)
  {
    SegmentShift(r, s, o, e - 1, q - (e - 1) + o);
    SegmentGivesFirst(r, q - (e - 1) + o);
  }

  /** A segment from the last `/` of the replaced one on survives into the result. */
  lemma RewrittenIsDirty(s: string, i: nat, e: nat, q: nat)
    requires HasSegment(s) && i == FirstSegment(s, 0).value && e == SegmentEnd(s, i)
    requires e - 1 <= q <= |s| && SegmentAt(s, q)
    ensures HasSegment(ReplaceSegment(s))
  {
    var o := i + |Originals| - 1;
    ReplacedTail(s, i, e, o);
    SegmentSurvives(s, ReplaceSegment(s), o, e, q);
  }

  /** The result still has a size segment exactly when the original has one from the last `/` of the replaced one on. */
  lemma RewrittenSegmentIff(s: string)
    requires HasSegment(s)
    ensures var e := SegmentEnd(s, FirstSegment(s, 0).value);
      !HasSegment(ReplaceSegment(s)) <==> forall q :: e - 1 <= q <= |s| ==> !SegmentAt(s, q)
  {
    var i := FirstSegment(s, 0).value;
    var e := SegmentEnd(s, i);
    if forall q :: e - 1 <= q <= |s| ==> !SegmentAt(s, q) {
      RewrittenIsClean(s);
    } else {
      var q :| e - 1 <= q <= |s| && SegmentAt(s, q);
      RewrittenIsDirty(s, i, e, q);
    }
  }

  /**
   * Rewriting twice equals rewriting once exactly when the original has no
   * further size segment from the last `/` of the replaced one on.
   */
  lemma TransformIdempotentIff(u: MaybeUrl)
    ensures TransformImageUrl(TransformImageUrl(u)) == TransformImageUrl(u) <==>
      || Falsy(u) || !HasSegment(u.text)
      || forall q :: SegmentEnd(u.text, FirstSegment(u.text, 0).value) - 1 <= q <= |u.text| ==> !SegmentAt(u.text, q)
  {
    TransformSpec(u);
    if !Falsy(u) && HasSegment(u.text) {
      var s := u.text;
      var r := ReplaceSegment(s);
      ReplaceChangesIff(s);
      assert r != [] by {
        ReplaceSegmentShape(s);
      }
      TransformSpec(Present(r));
      ReplaceChangesIff(r);
      RewrittenSegmentIff(s);
    }
  }

  /** The rewrite is not idempotent in general: `/1x/2x/` becomes `/originals/2x/`, which is rewritten again. */
  lemma TransformNotIdempotent()
    ensures var u := Present("/1x/2x/");
      TransformImageUrl(TransformImageUrl(u)) != TransformImageUrl(u)
  {
    var s := "/1x/2x/";
    TwoSegments(s);
    TransformIdempotentIff(Present(s));
  }

  /** `/1x/2x/` has its first size segment at 0, ending at 4, and a second one at 3. */
  lemma TwoSegments(s: string)
    requires s == "/1x/2x/"
    ensures FirstSegment(s, 0) == Some(0) && SegmentEnd(s, 0) == 4 && SegmentAt(s, 3)
  {
    SegmentOfDigits(s, "1", "");
    SegmentOfDigits(s[3..], "2", "");
    DigitRunIs(s, 1, 2);
    DigitRunIs(s, 3, 3);
    assert FirstSegment(s, 0) == Some(0) && SegmentEnd(s, 0) == 4;
    assert SegmentAt(s, 3);
  }
}
