/** The list of extra costs of a calculator (script.js, the
    `custo-extra-item` rows) and how it is aggregated before pricing.
    Each row carries an amount and the value of its kind selector: "real"
    for a flat amount in currency, "percent" for a percentage of the sale
    price. Any other selector value contributes nothing. */
module ExtraCosts {

  datatype ExtraCost = ExtraCost(value: real, kind: string)

  const FlatKind: string := "real"
  const PercentKind: string := "percent"

  /** The row `adicionarCustoExtra` appends: the selector starts on "real"
      and the empty amount field reads as 0, so it contributes nothing */
  function NewRow(): (c: ExtraCost)
    ensures c.kind == FlatKind
    ensures FlatPart(c) == 0.0 && RatePart(c) == 0.0
  {
    ExtraCost(0.0, FlatKind)
  }

  /** What one row adds to the flat extra-cost sum */
  function FlatPart(c: ExtraCost): real {
    if c.kind == FlatKind then c.value else 0.0
  }

  /** What one row adds to the extra percentage rate (as a fraction) */
  function RatePart(c: ExtraCost): real {
    if c.kind == FlatKind then 0.0
    else if c.kind == PercentKind then c.value / 100.0
    else 0.0
  }

  /** Left-to-right sum of `part` over the rows, the order in which the
      source's `forEach` accumulates */
  function Sum(xs: seq<ExtraCost>, part: ExtraCost -> real): real
    decreases |xs|
  {
    if |xs| == 0 then 0.0 else Sum(xs[..|xs| - 1], part) + part(xs[|xs| - 1])
  }

  function FlatSum(xs: seq<ExtraCost>): real {
    Sum(xs, FlatPart)
  }

  function PercentRate(xs: seq<ExtraCost>): real {
    Sum(xs, RatePart)
  }

  /** The partition loop of script.js:197-209 (and 415-427): one pass that
      adds "real" rows to the flat sum and value/100 of "percent" rows to
      the rate, ignoring rows of any other kind. */
  method Partition(items: seq<ExtraCost>) returns (flat: real, rate: real)
    ensures flat == FlatSum(items)
    ensures rate == PercentRate(items)
  {
    flat, rate := 0.0, 0.0;
    var i := 0;
    while i < |items|
      invariant 0 <= i <= |items|
      invariant flat == FlatSum(items[..i])
      invariant rate == PercentRate(items[..i])
    {
      var item := items[i];
      assert items[..i + 1][..i] == items[..i];
      if item.kind == FlatKind {
        flat := flat + item.value;
      } else if item.kind == PercentKind {
        rate := rate + item.value / 100.0;
      }
      i := i + 1;
    }
    assert items[..|items|] == items;
  }

  /** Sums split over concatenation */
  lemma {:induction false} SumAppend(xs: seq<ExtraCost>, ys: seq<ExtraCost>, part: ExtraCost -> real)
    ensures Sum(xs + ys, part) == Sum(xs, part) + Sum(ys, part)
    decreases |ys|
  {
    if |ys| == 0 {
      assert xs + ys == xs;
    } else {
      var n := |ys| - 1;
      assert (xs + ys)[..|xs + ys| - 1] == xs + ys[..n];
      SumAppend(xs, ys[..n], part);
    }
  }

  /** Inserting a row anywhere adds exactly that row's contribution */
  lemma InsertAt(xs: seq<ExtraCost>, i: nat, c: ExtraCost, part: ExtraCost -> real)
    requires i <= |xs|
    ensures Sum(xs[..i] + [c] + xs[i..], part) == Sum(xs, part) + part(c)
  {
    var front, back := xs[..i], xs[i..];
    SumAppend(front + [c], back, part);
    SumAppend(front, [c], part);
    assert Sum([c], part) == part(c) by {
      assert [c][..0] == [];
    }
    assert front + back == xs;
    SumAppend(front, back, part);
  }

  /** Taking row `j` out of a list takes one copy of it out of the
      list's multiset */
  lemma TakeOutMultiset(ys: seq<ExtraCost>, j: nat)
    requires j < |ys|
    ensures multiset(ys[..j] + ys[j + 1..]) == multiset(ys) - multiset{ys[j]}
  {
    assert ys == ys[..j] + [ys[j]] + ys[j + 1..];
  }

  /** Taking row `j` out of a list takes its contribution out of the sum */
  lemma TakeOutSum(ys: seq<ExtraCost>, j: nat, part: ExtraCost -> real)
    requires j < |ys|
    ensures Sum(ys, part) == Sum(ys[..j] + ys[j + 1..], part) + part(ys[j])
  {
    var front := ys[..j + 1];
    var back := ys[j + 1..];
    assert Sum(ys, part) == Sum(front, part) + Sum(back, part) by {
      assert ys == front + back;
      SumAppend(front, back, part);
    }
    assert Sum(front, part) == Sum(ys[..j], part) + part(ys[j]) by {
      assert front[..j] == ys[..j];
    }
    SumAppend(ys[..j], back, part);
  }

  /** A row that occurs in a multiset of rows sits at some index */
  lemma FindRow(ys: seq<ExtraCost>, x: ExtraCost) returns (j: nat)
    requires x in multiset(ys)
    ensures j < |ys| && ys[j] == x
  {
    j :| 0 <= j < |ys| && ys[j] == x;
  }

  /** The aggregate does not depend on the order of the rows */
  lemma {:induction false} SumPermutation(xs: seq<ExtraCost>, ys: seq<ExtraCost>, part: ExtraCost -> real)
    requires multiset(xs) == multiset(ys)
    ensures Sum(xs, part) == Sum(ys, part)
    decreases |xs|
  {
    if |xs| == 0 {
      assert |ys| == |multiset(ys)| == 0;
    } else {
      var n := |xs| - 1;
      var j := FindRow(ys, xs[n]);
      TakeOutMultiset(xs, n);
      TakeOutMultiset(ys, j);
      TakeOutSum(xs, n, part);
      TakeOutSum(ys, j, part);
      assert xs[..n] + xs[n + 1..] == xs[..n];
      SumPermutation(xs[..n], ys[..j] + ys[j + 1..], part);
    }
  }

  /** Permuting the rows leaves both the flat sum and the rate unchanged */
  lemma PartitionOrderIndependent(xs: seq<ExtraCost>, ys: seq<ExtraCost>)
    requires multiset(xs) == multiset(ys)
    ensures FlatSum(xs) == FlatSum(ys)
    ensures PercentRate(xs) == PercentRate(ys)
  {
    SumPermutation(xs, ys, FlatPart);
    SumPermutation(xs, ys, RatePart);
  }

  /** Removing row `i` (its "X" button, script.js:541-549) takes away exactly
      that row's contribution, and rows of unknown kind contribute nothing */
  lemma RemoveRow(xs: seq<ExtraCost>, i: nat)
    requires i < |xs|
    ensures FlatSum(xs[..i] + xs[i + 1..]) == FlatSum(xs) - FlatPart(xs[i])
    ensures PercentRate(xs[..i] + xs[i + 1..]) == PercentRate(xs) - RatePart(xs[i])
    ensures xs[i].kind != FlatKind && xs[i].kind != PercentKind ==>
              FlatSum(xs[..i] + xs[i + 1..]) == FlatSum(xs) && PercentRate(xs[..i] + xs[i + 1..]) == PercentRate(xs)
  {
    var rest := xs[..i] + xs[i + 1..];
    assert rest[..i] + [xs[i]] + rest[i..] == xs;
    InsertAt(rest, i, xs[i], FlatPart);
    InsertAt(rest, i, xs[i], RatePart);
  }

  /** Adding a row and removing it again restores the aggregate exactly */
  lemma AddThenRemove(xs: seq<ExtraCost>, c: ExtraCost)
    ensures var added := xs + [c];
            added[..|xs|] + added[|xs| + 1..] == xs
            && FlatSum(added) == FlatSum(xs) + FlatPart(c)
            && PercentRate(added) == PercentRate(xs) + RatePart(c)
  {
  }

  /** With no negative amounts the flat sum and the rate are non-negative */
  lemma {:induction false} SumNonNegative(xs: seq<ExtraCost>)
    requires forall k :: 0 <= k < |xs| ==> xs[k].value >= 0.0
    ensures FlatSum(xs) >= 0.0 && PercentRate(xs) >= 0.0
    decreases |xs|
  {
    if |xs| > 0 {
      SumNonNegative(xs[..|xs| - 1]);
    }
  }
}
