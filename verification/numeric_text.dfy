/** The live sanitiser of the numeric text fields (script.js,
    `validarEntradaNumerica`). On every keystroke it turns the first comma
    into a point, drops every character that is neither a digit nor a
    point, keeps only the first point (splitting on "." and re-joining the
    tail), and turns that point back into a comma. */
module NumericText {

  predicate IsDigit(c: char) {
    '0' <= c <= '9'
  }

  /** Text the sanitiser can produce: digits and at most one comma */
  predicate IsNumericText(t: string) {
    && (forall k :: 0 <= k < |t| ==> IsDigit(t[k]) || t[k] == ',')
    && Count(t, ',') <= 1
  }

  /** Occurrences of `c` in `s` */
  function Count(s: string, c: char): (n: nat)
    ensures n == 0 <==> c !in s
    ensures n <= |s|
  {
    if |s| == 0 then 0
    else
      assert c in s <==> s[0] == c || c in s[1..];
      (if s[0] == c then 1 else 0) + Count(s[1..], c)
  }

  lemma {:induction false} CountAppend(a: string, b: string, c: char)
    ensures Count(a + b, c) == Count(a, c) + Count(b, c)
    decreases |a|
  {
    if |a| == 0 {
      assert a + b == b;
    } else {
      assert (a + b)[1..] == a[1..] + b;
      CountAppend(a[1..], b, c);
    }
  }

  /** The digits of `s`, in order */
  function Digits(s: string): (r: string)
    ensures forall k :: 0 <= k < |r| ==> IsDigit(r[k])
  {
    if |s| == 0 then ""
    else if IsDigit(s[0]) then [s[0]] + Digits(s[1..])
    else Digits(s[1..])
  }

  lemma {:induction false} DigitsAppend(a: string, b: string)
    ensures Digits(a + b) == Digits(a) + Digits(b)
    decreases |a|
  {
    if |a| == 0 {
      assert a + b == b;
    } else {
      assert (a + b)[1..] == a[1..] + b;
      DigitsAppend(a[1..], b);
    }
  }

  /** The index of the first character of `s` that belongs to `cs`, or
      |s| when there is none */
  function IndexOfAny(s: string, cs: set<char>): (p: nat)
    ensures p <= |s|
    ensures forall k :: 0 <= k < p ==> s[k] !in cs
    ensures p < |s| ==> s[p] in cs
  {
    if |s| == 0 || s[0] in cs then 0 else 1 + IndexOfAny(s[1..], cs)
  }

  /** A character of `cs` after a prefix free of `cs` is the first one */
  lemma {:induction false} FirstIndexAt(a: string, x: char, b: string, cs: set<char>)
    requires forall k :: 0 <= k < |a| ==> a[k] !in cs
    requires x in cs
    ensures IndexOfAny(a + [x] + b, cs) == |a|
  {
    var s := a + [x] + b;
    assert s[|a|] == x;
    assert forall k :: 0 <= k < |a| ==> s[k] == a[k];
  }

  /** JavaScript's `replace` with a one-character string pattern: only the
      first occurrence of `from` becomes `to` */
  function ReplaceFirst(s: string, from: char, to: char): (r: string)
    ensures |r| == |s|
    ensures var p := IndexOfAny(s, {from});
            r == if p < |s| then s[..p] + [to] + s[p + 1..] else s
    ensures forall c :: c in r ==> c in s || c == to
    ensures from != to ==> Count(r, from) == (if Count(s, from) == 0 then 0 else Count(s, from) - 1)
    ensures from != to ==> Count(r, to) == Count(s, to) + (if from in s then 1 else 0)
    ensures !IsDigit(from) && !IsDigit(to) ==> Digits(r) == Digits(s)
  {
    if |s| == 0 then s
    else if s[0] == from then
      assert ([to] + s[1..])[1..] == s[1..];
      assert s[..0] + [to] + s[1..] == [to] + s[1..];
      [to] + s[1..]
    else
      var rest := ReplaceFirst(s[1..], from, to);
      ReplacedAfterHead(s, from, to, rest);
      ReplacedAfterHeadCounts(s, from, to, rest);
      [s[0]] + rest
  }

  /** One step of `ReplaceFirst`: a head that is not `from` is kept in
      front of the replaced tail */
  lemma {:induction false} ReplacedAfterHead(s: string, from: char, to: char, rest: string)
    requires |s| > 0 && s[0] != from
    requires var p := IndexOfAny(s[1..], {from});
             rest == if p < |s| - 1 then s[1..][..p] + [to] + s[1..][p + 1..] else s[1..]
    ensures var p := IndexOfAny(s, {from});
            [s[0]] + rest == if p < |s| then s[..p] + [to] + s[p + 1..] else s
  {
    var p := IndexOfAny(s[1..], {from});
    assert IndexOfAny(s, {from}) == p + 1;
    if p < |s| - 1 {
      assert s[..p + 1] == [s[0]] + s[1..][..p];
      assert s[p + 2..] == s[1..][p + 1..];
    } else {
      assert s == [s[0]] + s[1..];
    }
  }

  /** The same step for the characters, counts and digits */
  lemma {:induction false} ReplacedAfterHeadCounts(s: string, from: char, to: char, rest: string)
    requires |s| > 0 && s[0] != from
    requires |rest| == |s| - 1
    requires forall c :: c in rest ==> c in s[1..] || c == to
    requires from != to ==> Count(rest, from) == (if Count(s[1..], from) == 0 then 0 else Count(s[1..], from) - 1)
    requires from != to ==> Count(rest, to) == Count(s[1..], to) + (if from in s[1..] then 1 else 0)
    requires !IsDigit(from) && !IsDigit(to) ==> Digits(rest) == Digits(s[1..])
    ensures var r := [s[0]] + rest;
            && (forall c :: c in r ==> c in s || c == to)
            && (from != to ==> Count(r, from) == (if Count(s, from) == 0 then 0 else Count(s, from) - 1))
            && (from != to ==> Count(r, to) == Count(s, to) + (if from in s then 1 else 0))
            && (!IsDigit(from) && !IsDigit(to) ==> Digits(r) == Digits(s))
  {
    var r := [s[0]] + rest;
    assert r[1..] == rest;
    assert from in s <==> from in s[1..] by {
      assert s == [s[0]] + s[1..];
    }
  }

  /** Replacing the first `from` by `to` and then the first `to` by `from`
      gives the text back when it held no `to` to begin with */
  lemma {:induction false} ReplaceFirstRoundTrip(s: string, from: char, to: char)
    requires to !in s
    ensures ReplaceFirst(ReplaceFirst(s, from, to), to, from) == s
    decreases |s|
  {
    if |s| > 0 && s[0] != from {
      assert to !in s[1..];
      ReplaceFirstRoundTrip(s[1..], from, to);
    }
  }

  /** The `/[^0-9.]/g` replacement: keep digits and points only */
  function KeepNumeric(s: string): (r: string)
    ensures forall k :: 0 <= k < |r| ==> IsDigit(r[k]) || r[k] == '.'
    ensures forall c :: c in r ==> c in s
    ensures Digits(r) == Digits(s)
    ensures Count(r, '.') == Count(s, '.')
    ensures (forall k :: 0 <= k < |s| ==> IsDigit(s[k]) || s[k] == '.') ==> r == s
    ensures (forall k :: 0 <= k < |s| ==> !IsDigit(s[k]) && s[k] != '.') ==> r == ""
    ensures '.' !in s ==> r == Digits(s)
  {
    if |s| == 0 then ""
    else
      var rest := KeepNumeric(s[1..]);
      assert '.' !in s ==> '.' !in s[1..];
      if IsDigit(s[0]) || s[0] == '.' then
        assert ([s[0]] + rest)[1..] == rest;
        [s[0]] + rest
      else
        rest
  }

  /** The filter works character by character: what is kept stays in its
      original order, with nothing moved across the kept points */
  lemma {:induction false} KeepNumericAppend(a: string, b: string)
    ensures KeepNumeric(a + b) == KeepNumeric(a) + KeepNumeric(b)
    decreases |a|
  {
    if |a| == 0 {
      assert a + b == b;
    } else {
      assert (a + b)[1..] == a[1..] + b;
      KeepNumericAppend(a[1..], b);
    }
  }

  /** `s` with every `c` deleted */
  function Without(s: string, c: char): (r: string)
    ensures c !in r
    ensures c !in s ==> r == s
  {
    if |s| == 0 then ""
    else
      var rest := Without(s[1..], c);
      assert c !in s ==> c !in s[1..];
      if s[0] == c then rest
      else
        assert ([s[0]] + rest)[1..] == rest;
        [s[0]] + rest
  }

  /** Deleting the points from the filtered text leaves its digits */
  lemma {:induction false} WithoutPointsOfKeepNumeric(s: string)
    ensures Without(KeepNumeric(s), '.') == Digits(s)
    decreases |s|
  {
    if |s| > 0 {
      WithoutPointsOfKeepNumeric(s[1..]);
      var rest := KeepNumeric(s[1..]);
      if IsDigit(s[0]) || s[0] == '.' {
        assert ([s[0]] + rest)[1..] == rest;
      }
    }
  }

  /** `String.prototype.split` on a one-character separator: the pieces
      between separators, one more than there are separators */
  function SplitOn(s: string, sep: char): (parts: seq<string>)
    ensures |parts| == Count(s, sep) + 1
    ensures forall k :: 0 <= k < |parts| ==> sep !in parts[k]
    ensures JoinWith(parts, sep) == s
  {
    if |s| == 0 then [""]
    else
      var rest := SplitOn(s[1..], sep);
      if s[0] == sep then
        assert ([""] + rest)[1..] == rest;
        [""] + rest
      else
        var parts := [[s[0]] + rest[0]] + rest[1..];
        assert parts[1..] == rest[1..];
        parts
  }

  /** `Array.prototype.join(sep)` */
  function JoinWith(parts: seq<string>, sep: char): string
    requires |parts| >= 1
  {
    if |parts| == 1 then parts[0] else parts[0] + [sep] + JoinWith(parts[1..], sep)
  }

  /** `Array.prototype.join("")` */
  function Concat(parts: seq<string>): string {
    if |parts| == 0 then "" else parts[0] + Concat(parts[1..])
  }

  /** Gluing separator-free pieces leaves no separator, keeps the digits of
      the joined text and introduces no new character */
  lemma {:induction false} ConcatOfPieces(parts: seq<string>, sep: char)
    requires |parts| >= 1
    requires forall k :: 0 <= k < |parts| ==> sep !in parts[k]
    requires !IsDigit(sep)
    ensures Count(Concat(parts), sep) == 0
    ensures Digits(Concat(parts)) == Digits(JoinWith(parts, sep))
    ensures forall c :: c in Concat(parts) ==> c in JoinWith(parts, sep)
    decreases |parts|
  {
    if |parts| == 1 {
      assert Concat(parts) == parts[0] + "";
      assert parts[0] + "" == parts[0];
    } else {
      var tail := parts[1..];
      ConcatOfPieces(tail, sep);
      CountAppend(parts[0], Concat(tail), sep);
      DigitsAppend(parts[0], Concat(tail));
      DigitsAppend(parts[0] + [sep], JoinWith(tail, sep));
      DigitsAppend(parts[0], [sep]);
    }
  }

  /** Gluing the pieces of a split deletes the separators */
  lemma {:induction false} ConcatOfSplit(s: string, sep: char)
    ensures Concat(SplitOn(s, sep)) == Without(s, sep)
    decreases |s|
  {
    if |s| > 0 {
      ConcatOfSplit(s[1..], sep);
      var rest := SplitOn(s[1..], sep);
      if s[0] == sep {
        assert ([""] + rest)[1..] == rest;
        assert Concat([""] + rest) == "" + Concat(rest);
      } else {
        ConcatGrowsHead(s[0], rest);
      }
    }
  }

  /** Putting a character in front of the first piece puts it in front of
      the glued text */
  lemma ConcatGrowsHead(x: char, rest: seq<string>)
    requires |rest| > 0
    ensures Concat([[x] + rest[0]] + rest[1..]) == [x] + Concat(rest)
  {
    var parts := [[x] + rest[0]] + rest[1..];
    assert parts[1..] == rest[1..];
    assert Concat(parts) == [x] + rest[0] + Concat(rest[1..]);
  }

  /** The first piece of a split is the text before the first separator,
      and the other pieces are the split of the text after it */
  lemma {:induction false} SplitAtFirst(s: string, sep: char)
    requires IndexOfAny(s, {sep}) < |s|
    ensures var p := IndexOfAny(s, {sep});
            SplitOn(s, sep)[0] == s[..p] && SplitOn(s, sep)[1..] == SplitOn(s[p + 1..], sep)
    decreases |s|
  {
    var rest := SplitOn(s[1..], sep);
    if s[0] == sep {
      assert SplitOn(s, sep) == [""] + rest;
    } else {
      var q := IndexOfAny(s[1..], {sep});
      assert IndexOfAny(s, {sep}) == q + 1;
      SplitAtFirst(s[1..], sep);
      assert SplitOn(s, sep) == [[s[0]] + rest[0]] + rest[1..];
      HeadJoinsFirstPiece(s, q, rest, SplitOn(s, sep));
    }
  }

  /** A head that is not a separator joins the first piece of the tail */
  lemma {:induction false} HeadJoinsFirstPiece(s: string, q: nat, rest: seq<string>, parts: seq<string>)
    requires q < |s| - 1 && |rest| >= 1 && rest[0] == s[1..][..q]
    requires parts == [[s[0]] + rest[0]] + rest[1..]
    ensures parts[0] == s[..q + 1] && parts[1..] == rest[1..] && s[q + 2..] == s[1..][q + 1..]
  {
    assert s[..q + 1] == [s[0]] + s[1..][..q];
  }

  /** script.js:511-514: when the split yields more than two pieces, keep
      the first point and glue the remaining pieces together */
  function Collapse(v: string): (r: string)
    ensures Count(r, '.') <= 1
    ensures Digits(r) == Digits(v)
    ensures forall c :: c in r ==> c in v || c == '.'
    ensures Count(v, '.') <= 1 ==> r == v
    ensures var p := IndexOfAny(v, {'.'});
            r == if p < |v| then v[..p + 1] + Without(v[p + 1..], '.') else v
  {
    var parts := SplitOn(v, '.');
    if |parts| > 2 then
      CollapseCounts(v);
      CollapseKeepsFirstPoint(v);
      parts[0] + "." + Concat(parts[1..])
    else
      CollapseSinglePoint(v);
      v
  }

  /** With two points or more, the glued text has one point and the same
      digits */
  lemma {:induction false} CollapseCounts(v: string)
    requires |SplitOn(v, '.')| > 2
    ensures var parts := SplitOn(v, '.');
            var r := parts[0] + "." + Concat(parts[1..]);
            && Count(r, '.') == 1
            && Digits(r) == Digits(v)
            && forall c :: c in r ==> c in v || c == '.'
  {
    var parts := SplitOn(v, '.');
    var tail := parts[1..];
    ConcatOfPieces(tail, '.');
    assert Count(parts[0], '.') == 0;
    CountAppend(parts[0] + ".", Concat(tail), '.');
    CountAppend(parts[0], ".", '.');
    DigitsAppend(parts[0] + ".", Concat(tail));
    DigitsAppend(parts[0], ".");
    DigitsAppend(parts[0] + ".", JoinWith(tail, '.'));
  }

  /** With two points or more, the glued text is the text up to the first
      point followed by the rest without points */
  lemma {:induction false} CollapseKeepsFirstPoint(v: string)
    requires |SplitOn(v, '.')| > 2
    ensures var parts := SplitOn(v, '.');
            var p := IndexOfAny(v, {'.'});
            p < |v| && parts[0] + "." + Concat(parts[1..]) == v[..p + 1] + Without(v[p + 1..], '.')
  {
    var p := IndexOfAny(v, {'.'});
    assert Count(v, '.') > 0;
    SplitAtFirst(v, '.');
    ConcatOfSplit(v[p + 1..], '.');
    assert v[..p + 1] == v[..p] + ".";
  }

  /** With at most one point the text is already collapsed */
  lemma {:induction false} CollapseSinglePoint(v: string)
    requires |SplitOn(v, '.')| <= 2
    ensures var p := IndexOfAny(v, {'.'});
            Count(v, '.') <= 1 && (p < |v| ==> v == v[..p + 1] + Without(v[p + 1..], '.'))
  {
    var p := IndexOfAny(v, {'.'});
    if p < |v| {
      assert v == v[..p + 1] + v[p + 1..];
      CountAppend(v[..p + 1], v[p + 1..], '.');
      assert v[..p + 1] == v[..p] + ".";
      CountAppend(v[..p], ".", '.');
      assert '.' !in v[..p];
    }
  }

  /** `validarEntradaNumerica` on the field's text: the first comma or
      point becomes the decimal comma, with the digits before it on its
      left and every later digit on its right; everything else is
      dropped */
  function Sanitize(s: string): (r: string)
    ensures IsNumericText(r)
    ensures Digits(r) == Digits(s)
    ensures var p := IndexOfAny(s, {',', '.'});
            r == if p < |s| then Digits(s[..p]) + "," + Digits(s[p + 1..]) else Digits(s)
  {
    SanitizeShape(s);
    SeparatedDigits(s);
    ReplaceFirst(Collapse(KeepNumeric(ReplaceFirst(s, ',', '.'))), '.', ',')
  }

  /** The digits before the first separator, a comma and the digits after
      it are numeric text with the digits of the input */
  lemma {:induction false} SeparatedDigits(s: string)
    ensures var p := IndexOfAny(s, {',', '.'});
            var t := if p < |s| then Digits(s[..p]) + "," + Digits(s[p + 1..]) else Digits(s);
            IsNumericText(t) && Digits(t) == Digits(s)
  {
    var p := IndexOfAny(s, {',', '.'});
    if p < |s| {
      var a := s[..p];
      var b := s[p + 1..];
      DigitsAroundComma(a, b);
      assert Digits(s) == Digits(a) + Digits(b) by {
        assert s == a + [s[p]] + b;
        DigitsAppend(a + [s[p]], b);
        DigitsAppend(a, [s[p]]);
      }
    } else {
      DigitsAroundComma(s, "");
      DigitsOfDigits(s);
    }
  }

  /** Digits of digits are the same digits */
  lemma {:induction false} DigitsOfDigits(t: string)
    ensures Digits(Digits(t)) == Digits(t)
    decreases |t|
  {
    if |t| > 0 {
      DigitsOfDigits(t[1..]);
      var rest := Digits(t[1..]);
      if IsDigit(t[0]) {
        assert ([t[0]] + rest)[1..] == rest;
      }
    }
  }

  /** Digits, one comma, digits: numeric text whose digits are the two
      parts */
  lemma {:induction false} DigitsAroundComma(a: string, b: string)
    ensures IsNumericText(Digits(a))
    ensures IsNumericText(Digits(a) + "," + Digits(b))
    ensures Digits(Digits(a) + "," + Digits(b)) == Digits(a) + Digits(b)
  {
    var da := Digits(a);
    var db := Digits(b);
    var t := da + "," + db;
    assert forall k :: 0 <= k < |da| ==> IsDigit(da[k]) || da[k] == ',';
    assert Count(t, ',') == 1 by {
      assert ',' !in da by {
        assert forall k :: 0 <= k < |da| ==> da[k] != ',';
      }
      assert ',' !in db by {
        assert forall k :: 0 <= k < |db| ==> db[k] != ',';
      }
      CountAppend(da + ",", db, ',');
      CountAppend(da, ",", ',');
    }
    assert Digits(t) == da + db by {
      DigitsOfDigits(a);
      DigitsOfDigits(b);
      DigitsAppend(da + ",", db);
      DigitsAppend(da, ",");
    }
    assert forall k :: 0 <= k < |t| ==> IsDigit(t[k]) || t[k] == ',' by {
      forall k | 0 <= k < |t|
        ensures IsDigit(t[k]) || t[k] == ','
      {
        if k < |da| {
          assert t[k] == da[k];
        } else if k > |da| {
          assert t[k] == db[k - |da| - 1];
        }
      }
    }
  }

  /** The four steps of the sanitiser, followed through the first
      separator of the input */
  lemma {:induction false} SanitizeShape(s: string)
    ensures var p := IndexOfAny(s, {',', '.'});
            ReplaceFirst(Collapse(KeepNumeric(ReplaceFirst(s, ',', '.'))), '.', ',')
              == if p < |s| then Digits(s[..p]) + "," + Digits(s[p + 1..]) else Digits(s)
  {
    if IndexOfAny(s, {',', '.'}) == |s| {
      SanitizeWithoutSeparator(s);
    } else {
      SanitizeWithSeparator(s);
    }
  }

  /** Text with a comma or point: the first one becomes the decimal comma */
  lemma {:induction false} SanitizeWithSeparator(s: string)
    requires IndexOfAny(s, {',', '.'}) < |s|
    ensures var p := IndexOfAny(s, {',', '.'});
            ReplaceFirst(Collapse(KeepNumeric(ReplaceFirst(s, ',', '.'))), '.', ',')
              == Digits(s[..p]) + "," + Digits(s[p + 1..])
  {
    var p := IndexOfAny(s, {',', '.'});
    var dotted := ReplaceFirst(s, ',', '.');
    FirstSeparatorBecomesPoint(s);
    SanitizeAroundPoint(dotted, s[..p], dotted[p + 1..]);
  }

  /** Sanitising a separator-free prefix, a point and a tail keeps the
      digits on either side of a comma */
  lemma {:induction false} SanitizeAroundPoint(dotted: string, a: string, b: string)
    requires dotted == a + "." + b
    requires forall k :: 0 <= k < |a| ==> a[k] != ',' && a[k] != '.'
    ensures ReplaceFirst(Collapse(KeepNumeric(dotted)), '.', ',') == Digits(a) + "," + Digits(b)
  {
    PointBetween(a, b);
    CollapseAfterDigits(a, b);
  }

  /** Filtering a separator-free prefix, a point and a tail */
  lemma {:induction false} PointBetween(a: string, b: string)
    requires forall k :: 0 <= k < |a| ==> a[k] != ',' && a[k] != '.'
    ensures KeepNumeric(a + "." + b) == Digits(a) + "." + KeepNumeric(b)
  {
    KeepNumericAppend(a + ".", b);
    KeepNumericAppend(a, ".");
    assert '.' !in a;
  }

  /** Text without comma or point loses everything but its digits */
  lemma {:induction false} SanitizeWithoutSeparator(s: string)
    requires IndexOfAny(s, {',', '.'}) == |s|
    ensures ReplaceFirst(Collapse(KeepNumeric(ReplaceFirst(s, ',', '.'))), '.', ',') == Digits(s)
  {
    assert forall k :: 0 <= k < |s| ==> s[k] != ',' && s[k] != '.';
    assert IndexOfAny(s, {','}) == |s|;
    assert '.' !in s;
    var numeric := KeepNumeric(s);
    assert forall k :: 0 <= k < |numeric| ==> numeric[k] != '.';
    assert IndexOfAny(numeric, {'.'}) == |numeric|;
  }

  /** The first comma or point of the input is a point after the first
      step, with the text before it untouched and the digits after it
      kept */
  lemma {:induction false} FirstSeparatorBecomesPoint(s: string)
    requires IndexOfAny(s, {',', '.'}) < |s|
    ensures var p := IndexOfAny(s, {',', '.'});
            var dotted := ReplaceFirst(s, ',', '.');
            && dotted == s[..p] + "." + dotted[p + 1..]
            && Digits(dotted[p + 1..]) == Digits(s[p + 1..])
  {
    var p := IndexOfAny(s, {',', '.'});
    var pc := IndexOfAny(s, {','});
    FirstCommaNotBefore(s);
    if pc == p {
      FirstSeparatorIsComma(s, p);
    } else {
      FirstSeparatorIsPoint(s, p);
    }
  }

  /** No comma comes before the first comma or point, so when the first
      separator is not the first comma it is a point */
  lemma {:induction false} FirstCommaNotBefore(s: string)
    ensures var p := IndexOfAny(s, {',', '.'});
            var pc := IndexOfAny(s, {','});
            pc >= p && (p < pc ==> s[p] == '.')
  {
  }

  lemma {:induction false} FirstSeparatorIsComma(s: string, p: nat)
    requires p < |s| && IndexOfAny(s, {','}) == p
    ensures var dotted := ReplaceFirst(s, ',', '.');
            && dotted == s[..p] + "." + dotted[p + 1..]
            && dotted[p + 1..] == s[p + 1..]
  {
    var dotted := ReplaceFirst(s, ',', '.');
    assert dotted == s[..p] + "." + s[p + 1..];
    assert dotted[p + 1..] == s[p + 1..];
  }

  lemma {:induction false} FirstSeparatorIsPoint(s: string, p: nat)
    requires p < |s| && s[p] == '.' && IndexOfAny(s, {','}) > p
    ensures var dotted := ReplaceFirst(s, ',', '.');
            && dotted == s[..p] + "." + dotted[p + 1..]
            && Digits(dotted[p + 1..]) == Digits(s[p + 1..])
  {
    var dotted := ReplaceFirst(s, ',', '.');
    var a := s[..p];
    assert dotted[..p] == a;
    PointSplit(dotted, p);
    PointSplit(s, p);
    DigitsAppend(a + ".", dotted[p + 1..]);
    DigitsAppend(a + ".", s[p + 1..]);
    var x := Digits(a + ".");
    assert Digits(dotted[p + 1..]) == (x + Digits(dotted[p + 1..]))[|x|..];
    assert Digits(s[p + 1..]) == (x + Digits(s[p + 1..]))[|x|..];
  }

  /** Cutting a text around a point at `p` */
  lemma {:induction false} PointSplit(s: string, p: nat)
    requires p < |s| && s[p] == '.'
    ensures s == s[..p] + "." + s[p + 1..]
  {
  }

  /** Digits, a point, then filtered text: the point stays, the later
      points go, and the point turns into the comma */
  lemma {:induction false} CollapseAfterDigits(a: string, b: string)
    ensures ReplaceFirst(Collapse(Digits(a) + "." + KeepNumeric(b)), '.', ',') == Digits(a) + "," + Digits(b)
  {
    var da := Digits(a);
    var kb := KeepNumeric(b);
    assert forall k :: 0 <= k < |da| ==> da[k] !in {'.'};
    FirstIndexAt(da, '.', kb, {'.'});
    assert (da + "." + kb)[..|da| + 1] == da + ".";
    assert (da + "." + kb)[|da| + 1..] == kb;
    WithoutPointsOfKeepNumeric(b);
    var db := Digits(b);
    assert Collapse(da + "." + kb) == da + "." + db;
    FirstIndexAt(da, '.', db, {'.'});
    assert (da + "." + db)[..|da|] == da;
    assert (da + "." + db)[|da| + 1..] == db;
  }

  /** Text the sanitiser could have produced is left as it is */
  lemma SanitizeFixesNumericText(t: string)
    requires IsNumericText(t)
    ensures Sanitize(t) == t
  {
    assert '.' !in t by {
      assert forall k :: 0 <= k < |t| ==> t[k] != '.';
    }
    var dotted := ReplaceFirst(t, ',', '.');
    assert ',' !in dotted;
    assert forall k :: 0 <= k < |dotted| ==> dotted[k] in dotted;
    assert forall k :: 0 <= k < |t| ==> t[k] in t;
    assert KeepNumeric(dotted) == dotted;
    ReplaceFirstRoundTrip(t, ',', '.');
  }

  /** Sanitising twice is sanitising once */
  lemma SanitizeIdempotent(s: string)
    ensures Sanitize(Sanitize(s)) == Sanitize(s)
  {
    SanitizeFixesNumericText(Sanitize(s));
  }
}
