/** The search-box validator of the market research panel
    (market-research-new.js, `validateSearchInput`): the trimmed query must
    be 3 to 100 characters long and contain none of `< > { } [ ] \`.
    JavaScript measures length in UTF-16 code units, so a character outside
    the Basic Multilingual Plane counts twice. */
module SearchInput {

  const MinSearchLength: nat := 3
  const MaxSearchLength: nat := 100

  /** The characters `String.prototype.trim` removes: white space and line
      terminators of ECMAScript */
  predicate IsJsWhitespace(c: char) {
    || c == '\t' || c == '\n' || c == '\U{000B}' || c == '\U{000C}' || c == '\r' || c == ' '
    || c == '\U{00A0}' || c == '\U{1680}' || ('\U{2000}' <= c <= '\U{200A}')
    || c == '\U{2028}' || c == '\U{2029}' || c == '\U{202F}' || c == '\U{205F}'
    || c == '\U{3000}' || c == '\U{FEFF}'
  }

  /** Drops leading white space: the result is a suffix of `s` and only
      white space was dropped */
  function TrimStart(s: string): (r: string)
    ensures |r| <= |s| && r == s[|s| - |r|..]
    ensures forall k :: 0 <= k < |s| - |r| ==> IsJsWhitespace(s[k])
    ensures |r| > 0 ==> !IsJsWhitespace(r[0])
  {
    if |s| > 0 && IsJsWhitespace(s[0]) then TrimStart(s[1..]) else s
  }

  /** Drops trailing white space: the result is a prefix of `s` and only
      white space was dropped */
  function TrimEnd(s: string): (r: string)
    ensures |r| <= |s| && r == s[..|r|]
    ensures forall k :: |r| <= k < |s| ==> IsJsWhitespace(s[k])
    ensures |r| > 0 ==> !IsJsWhitespace(r[|r| - 1])
  {
    if |s| > 0 && IsJsWhitespace(s[|s| - 1]) then TrimEnd(s[..|s| - 1]) else s
  }

  /** `r` is the slice of `s` starting at `lead` with only white space
      around it */
  ghost predicate IsTrimOf(s: string, r: string, lead: int) {
    && 0 <= lead && lead + |r| <= |s|
    && r == s[lead..lead + |r|]
    && (forall k :: 0 <= k < lead ==> IsJsWhitespace(s[k]))
    && (forall k :: lead + |r| <= k < |s| ==> IsJsWhitespace(s[k]))
  }

  /** `String.prototype.trim` */
  function Trim(s: string): (r: string)
    ensures exists lead :: IsTrimOf(s, r, lead)
    ensures |r| > 0 ==> !IsJsWhitespace(r[0]) && !IsJsWhitespace(r[|r| - 1])
  {
    TrimIsSlice(s);
    TrimEnd(TrimStart(s))
  }

  /** Trimming the end of the trimmed start leaves a slice with only white
      space around it */
  lemma {:induction false} TrimIsSlice(s: string)
    ensures IsTrimOf(s, TrimEnd(TrimStart(s)), |s| - |TrimStart(s)|)
  {
    var front := TrimStart(s);
    SliceOfSuffix(s, front, TrimEnd(front), |s| - |front|);
  }

  /** A prefix `r` of the suffix `front` of `s`, with white space before
      `front` and after `r`, is a trim of `s` */
  lemma SliceOfSuffix(s: string, front: string, r: string, lead: nat)
    requires lead + |front| == |s| && front == s[lead..]
    requires |r| <= |front| && r == front[..|r|]
    requires forall k :: 0 <= k < lead ==> IsJsWhitespace(s[k])
    requires forall k :: |r| <= k < |front| ==> IsJsWhitespace(front[k])
    ensures IsTrimOf(s, r, lead)
  {
    forall k | lead + |r| <= k < |s|
      ensures IsJsWhitespace(s[k])
    {
      assert s[k] == front[k - lead];
    }
  }

  /** Trimming twice is trimming once */
  lemma {:induction false} TrimIdempotent(s: string)
    ensures Trim(Trim(s)) == Trim(s)
  {
    var r := Trim(s);
    assert TrimStart(r) == r;
    assert TrimEnd(r) == r;
  }

  /** Length as JavaScript counts it, in UTF-16 code units */
  function Utf16Length(s: string): (n: nat)
    ensures |s| <= n <= 2 * |s|
    ensures (forall k :: 0 <= k < |s| ==> s[k] as int < 0x1_0000) ==> n == |s|
  {
    if |s| == 0 then 0
    else (if s[0] as int < 0x1_0000 then 1 else 2) + Utf16Length(s[1..])
  }

  /** The class `/[<>{}[\]\\]/` */
  predicate IsForbidden(c: char) {
    c == '<' || c == '>' || c == '{' || c == '}' || c == '[' || c == ']' || c == '\\'
  }

  /** What the validator accepts, stated on the already trimmed query */
  predicate IsAcceptableQuery(q: string) {
    && MinSearchLength <= Utf16Length(q) <= MaxSearchLength
    && forall k :: 0 <= k < |q| ==> !IsForbidden(q[k])
  }

  /** `validateSearchInput` (market-research-new.js:59-85): the length tests
      first, then a scan for a forbidden character */
  method ValidateSearchInput(raw: string) returns (ok: bool)
    ensures ok <==> IsAcceptableQuery(Trim(raw))
  {
    var query := Trim(raw);
    var length := Utf16Length(query);
    if length < MinSearchLength {
      return false;
    }
    if length > MaxSearchLength {
      return false;
    }
    ok := HasNoForbiddenChar(query);
  }

  /** The `/[<>{}[\]\\]/.test(query)` scan: true when no character of the
      query is forbidden */
  method HasNoForbiddenChar(q: string) returns (clean: bool)
    ensures clean <==> forall k :: 0 <= k < |q| ==> !IsForbidden(q[k])
  {
    var i := 0;
    while i < |q|
      invariant 0 <= i <= |q|
      invariant forall k :: 0 <= k < i ==> !IsForbidden(q[k])
    {
      if IsForbidden(q[i]) {
        return false;
      }
      i := i + 1;
    }
    return true;
  }

  predicate AllWhitespace(w: string) {
    forall k :: 0 <= k < |w| ==> IsJsWhitespace(w[k])
  }

  /** Leading white space is dropped whatever follows it */
  lemma {:induction false} TrimStartPadded(w: string, x: string)
    requires AllWhitespace(w)
    ensures TrimStart(w + x) == TrimStart(x)
    decreases |w|
  {
    if |w| > 0 {
      assert (w + x)[1..] == w[1..] + x;
      assert (w + x)[0] == w[0];
      TrimStartPadded(w[1..], x);
    } else {
      assert w + x == x;
    }
  }

  /** Trailing white space is dropped whatever precedes it */
  lemma {:induction false} TrimEndPadded(x: string, w: string)
    requires AllWhitespace(w)
    ensures TrimEnd(x + w) == TrimEnd(x)
    decreases |w|
  {
    if |w| > 0 {
      var n := |x + w|;
      assert (x + w)[n - 1] == w[|w| - 1];
      assert (x + w)[..n - 1] == x + w[..|w| - 1];
      TrimEndPadded(x, w[..|w| - 1]);
    } else {
      assert x + w == x;
    }
  }

  /** Trimming the front of a text followed by white space: the white
      space stays behind a non-blank text and vanishes after a blank one */
  lemma {:induction false} TrimStartThenPadding(x: string, w: string)
    requires AllWhitespace(w)
    ensures TrimStart(x + w) == if |TrimStart(x)| == 0 then TrimStart(w) else TrimStart(x) + w
    decreases |x|
  {
    if |x| == 0 {
      assert x + w == w;
    } else {
      assert (x + w)[0] == x[0];
      assert (x + w)[1..] == x[1..] + w;
      if IsJsWhitespace(x[0]) {
        TrimStartThenPadding(x[1..], w);
      }
    }
  }

  /** White space around a query is removed by `trim` */
  lemma {:induction false} TrimPadded(w1: string, raw: string, w2: string)
    requires AllWhitespace(w1) && AllWhitespace(w2)
    ensures Trim(w1 + raw + w2) == Trim(raw)
  {
    assert TrimStart(w1 + raw + w2) == TrimStart(raw + w2) by {
      assert w1 + raw + w2 == w1 + (raw + w2);
      TrimStartPadded(w1, raw + w2);
    }
    assert TrimEnd(TrimStart(raw + w2)) == TrimEnd(TrimStart(raw)) by {
      TrimStartThenPadding(raw, w2);
      if |TrimStart(raw)| == 0 {
        assert TrimStart(w2) == "" by {
          TrimStartPadded(w2, "");
          assert w2 + "" == w2;
        }
      } else {
        TrimEndPadded(TrimStart(raw), w2);
      }
    }
  }

  /** Surrounding white space never changes the verdict, and an accepted
      query holds at least two characters (three UTF-16 units) */
  lemma ValidationSeesTrimmedQuery(w1: string, raw: string, w2: string)
    requires AllWhitespace(w1) && AllWhitespace(w2)
    ensures IsAcceptableQuery(Trim(w1 + raw + w2)) <==> IsAcceptableQuery(Trim(raw))
    ensures IsAcceptableQuery(Trim(raw)) ==> |Trim(raw)| >= 2
  {
    TrimPadded(w1, raw, w2);
  }
}
