/**
 * The data logic of the two charts: the category pie (sorted, top six plus "其他", positive
 * slices only, cycling colours, one exploded slice at a time) and the area trend (thinned to at
 * most 30 points, y axis with 20% headroom).
 */
module Charts {
  import opened Sorting

  // ---------------------------------------------------------------- pie: sort and group

  /** One `(category, amount)` item of the distribution dict. */
  datatype Entry = Entry(name: string, value: real)

  const OtherLabel: string := "其他"
  const Palette: nat := 7
  const TopCount: nat := 6

  function SumValues(es: seq<Entry>): real {
    if es == [] then 0.0 else es[0].value + SumValues(es[1..])
  }

  /** `key=lambda x: x[1], reverse=True`: `a` may come before `b`. */
  predicate ByValue(a: Entry, b: Entry) {
    a.value >= b.value
  }

  lemma ByValueIsPreorder()
    ensures TotalPreorder(ByValue)
  {
  }

  /** `sorted(data.items(), key=lambda x: x[1], reverse=True)`. */
  function SortEntries(es: seq<Entry>): (r: seq<Entry>)
    ensures SortedBy(r, ByValue) && multiset(r) == multiset(es)
    ensures SumValues(r) == SumValues(es)
  {
    ByValueIsPreorder();
    SortSorted(es, ByValue);
    SortSum(es);
    Sort(es, ByValue)
  }

  lemma {:induction false} InsertSum(x: Entry, s: seq<Entry>)
    ensures SumValues(Insert(x, s, ByValue)) == x.value + SumValues(s)
  {
    if s != [] && !ByValue(x, s[0]) {
      InsertSum(x, s[1..]);
      assert Insert(x, s, ByValue)[1..] == Insert(x, s[1..], ByValue);
    } else if s != [] {
      assert Insert(x, s, ByValue)[1..] == s;
    }
  }

  lemma {:induction false} SortSum(s: seq<Entry>)
    ensures SumValues(Sort(s, ByValue)) == SumValues(s)
  {
    if s != [] {
      SortSum(s[1..]);
      InsertSum(s[0], Sort(s[1..], ByValue));
    }
  }

  lemma {:induction false} SumAppend(a: seq<Entry>, b: seq<Entry>)
    ensures SumValues(a + b) == SumValues(a) + SumValues(b)
  {
    if a != [] {
      assert (a + b)[1..] == a[1..] + b;
      SumAppend(a[1..], b);
    } else {
      assert a + b == b;
    }
  }

  /** "只显示前 6 项 + 其他": beyond six entries, the rest is folded into one "其他" entry. */
  function Group(s: seq<Entry>): (g: seq<Entry>)
    ensures |g| <= TopCount + 1
    ensures |s| <= TopCount ==> g == s
    ensures |s| > TopCount ==> |g| == TopCount + 1 && g[..TopCount] == s[..TopCount] &&
                               g[TopCount] == Entry(OtherLabel, SumValues(s[TopCount..]))
    ensures SumValues(g) == SumValues(s)
  {
    if |s| > TopCount then
      var g := s[..TopCount] + [Entry(OtherLabel, SumValues(s[TopCount..]))];
      SumAppend(s[..TopCount], [Entry(OtherLabel, SumValues(s[TopCount..]))]);
      SumAppend(s[..TopCount], s[TopCount..]);
      assert s[..TopCount] + s[TopCount..] == s;
      assert SumValues([Entry(OtherLabel, SumValues(s[TopCount..]))]) == SumValues(s[TopCount..]);
      g
    else s
  }

  /** Above six entries, the entries that are kept are each at least as large as every folded one. */
  lemma GroupKeepsLargest(es: seq<Entry>)
    requires |es| > TopCount
    ensures var s := SortEntries(es);
            forall i, j :: 0 <= i < TopCount <= j < |s| ==> Group(s)[i].value >= s[j].value
  {
  }

  // ---------------------------------------------------------------- pie: slices

  /** A slice of the pie: the entry at `index` of the grouped list, with its colour. */
  datatype Slice = Slice(index: nat, name: string, value: real, colour: nat)

  /** The loop over the grouped entries from `i` on: `if val <= 0: continue`, colour `i % 7`. */
  function SlicesFrom(g: seq<Entry>, i: nat): (r: seq<Slice>)
    requires i <= |g|
    ensures |r| <= |g| - i
    ensures forall k :: 0 <= k < |r| ==> SliceOf(g, r[k]) && i <= r[k].index
    decreases |g| - i
  {
    if i == |g| then []
    else
      var rest := SlicesFrom(g, i + 1);
      if g[i].value <= 0.0 then rest
      else [Slice(i, g[i].name, g[i].value, i % Palette)] + rest
  }

  /** `sl` shows the positive entry of `g` it names, with that entry's colour. */
  predicate SliceOf(g: seq<Entry>, sl: Slice) {
    sl.index < |g| && g[sl.index].value > 0.0 && sl.name == g[sl.index].name &&
    sl.value == g[sl.index].value && sl.colour == sl.index % Palette
  }

  predicate Increasing(r: seq<Slice>) {
    forall k, l :: 0 <= k < l < |r| ==> r[k].index < r[l].index
  }

  /** The slices keep the order of the entries. */
  lemma {:induction false} SlicesInOrder(g: seq<Entry>, i: nat)
    requires i <= |g|
    ensures Increasing(SlicesFrom(g, i))
    decreases |g| - i
  {
    if i < |g| {
      SlicesInOrder(g, i + 1);
      var rest := SlicesFrom(g, i + 1);
      if g[i].value > 0.0 {
        var r := SlicesFrom(g, i);
        assert r == [Slice(i, g[i].name, g[i].value, i % Palette)] + rest;
        forall k, l | 0 <= k < l < |r| ensures r[k].index < r[l].index {
          assert r[l] == rest[l - 1] && rest[l - 1].index >= i + 1;
          if k == 0 {
            assert r[k].index == i;
          } else {
            assert r[k] == rest[k - 1];
            assert rest[k - 1].index < rest[l - 1].index;
          }
        }
      }
    }
  }

  /** Every positive entry from `i` on gets a slice. */
  lemma {:induction false} SlicesComplete(g: seq<Entry>, i: nat, j: nat)
    requires i <= j < |g| && g[j].value > 0.0
    ensures exists k :: 0 <= k < |SlicesFrom(g, i)| && SlicesFrom(g, i)[k].index == j
    decreases |g| - i
  {
    var r := SlicesFrom(g, i);
    if j == i {
      assert r[0].index == j;
    } else {
      SlicesComplete(g, i + 1, j);
      var rest := SlicesFrom(g, i + 1);
      var k :| 0 <= k < |rest| && rest[k].index == j;
      if g[i].value > 0.0 {
        assert r[k + 1] == rest[k];
      } else {
        assert r[k] == rest[k];
      }
    }
  }

  /** `CategoryPieChart.update_data(data)`: the slices it appends, in order. */
  function PieSlices(data: seq<Entry>): (r: seq<Slice>)
    ensures |r| <= TopCount + 1
  {
    var g := Group(SortEntries(data));
    SlicesFrom(g, 0)
  }

  /**
   * The slices show the grouped, sorted entries: each slice is a positive entry with its own
   * colour, in the grouped order, and no positive entry is missing.
   */
  lemma PieShowsGroup(data: seq<Entry>)
    ensures var g := Group(SortEntries(data));
            var r := PieSlices(data);
            (forall k :: 0 <= k < |r| ==> SliceOf(g, r[k])) && Increasing(r) &&
            (forall j :: 0 <= j < |g| && g[j].value > 0.0 ==> exists k :: 0 <= k < |r| && r[k].index == j)
  {
    var g := Group(SortEntries(data));
    SlicesInOrder(g, 0);
    forall j | 0 <= j < |g| && g[j].value > 0.0
      ensures exists k :: 0 <= k < |SlicesFrom(g, 0)| && SlicesFrom(g, 0)[k].index == j
    {
      SlicesComplete(g, 0, j);
    }
  }

  function SliceSum(r: seq<Slice>): real {
    if r == [] then 0.0 else r[0].value + SliceSum(r[1..])
  }

  /** With no negative amounts, the slices add up to the whole distribution: only zero entries are dropped. */
  lemma PieKeepsTotal(data: seq<Entry>)
    requires forall i :: 0 <= i < |data| ==> data[i].value >= 0.0
    ensures SliceSum(PieSlices(data)) == SumValues(data)
  {
    var s := SortEntries(data);
    assert forall x :: x in s ==> x in multiset(data);
    assert forall i :: 0 <= i < |s| ==> s[i].value >= 0.0 by {
      forall i | 0 <= i < |s| ensures s[i].value >= 0.0 {
        assert s[i] in multiset(data);
      }
    }
    var g := Group(s);
    NonNegativeOther(s);
    SlicesSum(g, 0);
  }

  lemma NonNegativeOther(s: seq<Entry>)
    requires forall i :: 0 <= i < |s| ==> s[i].value >= 0.0
    ensures forall i :: 0 <= i < |Group(s)| ==> Group(s)[i].value >= 0.0
  {
    if |s| > TopCount {
      SumNonNegative(s[TopCount..]);
    }
  }

  lemma {:induction false} SumNonNegative(s: seq<Entry>)
    requires forall i :: 0 <= i < |s| ==> s[i].value >= 0.0
    ensures SumValues(s) >= 0.0
  {
    if s != [] {
      SumNonNegative(s[1..]);
    }
  }

  lemma {:induction false} SlicesSum(g: seq<Entry>, i: nat)
    requires i <= |g|
    requires forall j :: 0 <= j < |g| ==> g[j].value >= 0.0
    ensures SliceSum(SlicesFrom(g, i)) == SumValues(g[i..])
    decreases |g| - i
  {
    if i < |g| {
      SlicesSum(g, i + 1);
      assert g[i..][1..] == g[i + 1..];
      if g[i].value > 0.0 {
        var r := SlicesFrom(g, i);
        assert r[1..] == SlicesFrom(g, i + 1);
      }
    }
  }

  // ---------------------------------------------------------------- pie: exploded slice

  /** The flags after `handle_slice_click(s)`: every slice reset, then `s` toggled. */
  function ToggleExclusive(flags: seq<bool>, s: nat): (r: seq<bool>)
    requires s < |flags|
    ensures |r| == |flags| && r[s] == !flags[s]
    ensures forall j :: 0 <= j < |r| && j != s ==> !r[j]
  {
    seq(|flags|, j => j == s && !flags[s])
  }

  /** After a click at most one slice is exploded, and a second click on it puts it back. */
  lemma AtMostOneExploded(flags: seq<bool>, s: nat, t: nat)
    requires s < |flags| && t < |flags|
    ensures forall i, j :: 0 <= i < j < |flags| ==> !(ToggleExclusive(flags, s)[i] && ToggleExclusive(flags, s)[j])
    ensures !flags[s] ==> ToggleExclusive(ToggleExclusive(flags, s), s) == seq(|flags|, j => false)
    ensures !flags[s] && t != s ==> ToggleExclusive(ToggleExclusive(flags, s), t) == ToggleExclusive(seq(|flags|, j => false), t)
  {
  }

  /** `handle_slice_click(slice)` on the slices' exploded flags. */
  method HandleSliceClick(exploded: array<bool>, s: nat)
    requires s < exploded.Length
    modifies exploded
    ensures exploded[..] == ToggleExclusive(old(exploded[..]), s)
  {
    var was := exploded[s];
    var i := 0;
    while i < exploded.Length
      invariant 0 <= i <= exploded.Length
      invariant forall j :: 0 <= j < i ==> !exploded[j]
      invariant forall j :: i <= j < exploded.Length ==> exploded[j] == old(exploded[j])
    {
      exploded[i] := false;
      i := i + 1;
    }
    exploded[s] := !was;
  }

  /**
   * The slice each slice's `clicked` handler passes to `handle_slice_click`, as written: the
   * lambda reads the loop variable `slice` when it runs, by which time the loop has left it on
   * the last slice appended.
   */
  function HandlerTargetsAsWritten(n: nat): (t: seq<nat>)
    ensures |t| == n && forall i :: 0 <= i < n ==> t[i] == n - 1
  {
    seq(n, i => n - 1)
  }

  /** Clicking the first of two or more unexploded slices explodes the last one instead, and never the one clicked. */
  lemma ClickHitsLastSlice(n: nat)
    requires n >= 2
    ensures var flags := seq(n, j => false);
            var after := ToggleExclusive(flags, HandlerTargetsAsWritten(n)[0]);
            !after[0] && after[n - 1]
  {
  }

  /** The intended binding, `lambda checked=False, s=slice: ...`: slice `i`'s handler targets slice `i`. */
  function HandlerTargets(n: nat): (t: seq<nat>)
    ensures |t| == n && forall i :: 0 <= i < n ==> t[i] == i
  {
    seq(n, i => i)
  }

  /** With each handler bound to its own slice, a click toggles the slice clicked and resets the rest. */
  lemma ClickHitsClickedSlice(flags: seq<bool>, k: nat)
    requires k < |flags|
    ensures var after := ToggleExclusive(flags, HandlerTargets(|flags|)[k]);
            after[k] == !flags[k] && forall j :: 0 <= j < |flags| && j != k ==> !after[j]
  {
  }

  // ---------------------------------------------------------------- trend: thinning

  const MaxPoints: nat := 30

  /** `s[::step]`: its length is `ceil(|s| / step)`. */
  function Every<T>(s: seq<T>, step: nat): (r: seq<T>)
    requires step >= 1
    ensures |s| <= |r| * step < |s| + step
    decreases |s|
  {
    if |s| == 0 then []
    else if |s| <= step then [s[0]]
    else
      var rest := Every(s[step..], step);
      assert (|rest| + 1) * step == |rest| * step + step;
      [s[0]] + rest
  }

  /** Element `k` of `s[::step]` is element `k * step` of `s`. */
  lemma {:induction false} EveryAt<T>(s: seq<T>, step: nat, k: nat)
    requires step >= 1 && k < |Every(s, step)|
    ensures k * step < |s| && Every(s, step)[k] == s[k * step]
    decreases k
  {
    if k > 0 {
      EveryAt(s[step..], step, k - 1);
      assert (k - 1) * step + step == k * step;
    }
  }

  /** The stride `update_data` uses for `n` points: 1 (no thinning) up to 30, else `n // 30 + 1`. */
  function Stride(n: nat): (step: nat)
    ensures step >= 1
    ensures n > MaxPoints ==> step == n / MaxPoints + 1 && n < MaxPoints * step
  {
    if n > MaxPoints then n / MaxPoints + 1 else 1
  }

  /** `dates[::step]` or `values[::step]` when there are more than 30 points, else the whole list. */
  function Thin<T>(s: seq<T>): (r: seq<T>)
    ensures |s| <= MaxPoints ==> r == s
    ensures |s| > MaxPoints ==> r == Every(s, Stride(|s|))
    ensures |r| <= MaxPoints
  {
    if |s| > MaxPoints then
      EveryBound(s, Stride(|s|), MaxPoints);
      Every(s, Stride(|s|))
    else s
  }

  /** At most `m` points are kept from at most `m * step`. */
  lemma {:induction false} EveryBound<T>(s: seq<T>, step: nat, m: nat)
    requires step >= 1 && |s| <= m * step
    ensures |Every(s, step)| <= m
    decreases m
  {
    if m > 0 && |s| > step {
      assert (m - 1) * step == m * step - step;
      EveryBound(s[step..], step, m - 1);
    }
  }

  /** Point `k` of the thinned list is point `k * Stride` of the full one. */
  lemma ThinAt<T>(s: seq<T>, k: nat)
    requires k < |Thin(s)|
    ensures k * Stride(|s|) < |s| && Thin(s)[k] == s[k * Stride(|s|)]
  {
    if |s| > MaxPoints {
      EveryAt(s, Stride(|s|), k);
    }
  }

  /** Dates and values of equal length are thinned alike, so the kept points stay paired. */
  lemma ThinAligned<A, B>(dates: seq<A>, values: seq<B>, k: nat)
    requires |dates| == |values| && k < |Thin(dates)|
    ensures |Thin(dates)| == |Thin(values)|
    ensures var i := k * Stride(|dates|);
            i < |dates| && Thin(dates)[k] == dates[i] && Thin(values)[k] == values[i]
  {
    if |dates| > MaxPoints {
      ThinAt(dates, k);
      EveryLength(dates, values, Stride(|dates|));
      ThinAt(values, k);
    }
  }

  /** `s[::step]` has a length that only depends on `|s|`. */
  lemma {:induction false} EveryLength<A, B>(a: seq<A>, b: seq<B>, step: nat)
    requires step >= 1 && |a| == |b|
    ensures |Every(a, step)| == |Every(b, step)|
    decreases |a|
  {
    if |a| > step {
      EveryLength(a[step..], b[step..], step);
    }
  }

  // ---------------------------------------------------------------- trend: y axis

  /** `max(0, *s)`: the largest value, or 0 when none is positive. */
  function MaxOrZero(s: seq<real>): (m: real)
    ensures m >= 0.0
    ensures forall i :: 0 <= i < |s| ==> s[i] <= m
    ensures m == 0.0 || exists i :: 0 <= i < |s| && s[i] == m
  {
    if s == [] then 0.0
    else
      var rest := MaxOrZero(s[1..]);
      assert forall i :: 1 <= i < |s| ==> s[i] == s[1..][i - 1];
      if s[0] > rest then s[0] else rest
  }

  /** `max_val + (max_val * 0.2 if max_val > 0 else 100)`. */
  function AxisTop(m: real): real {
    if m > 0.0 then m + m * 0.2 else m + 100.0
  }

  /**
   * The plotting loop of `update_data`: one point `(i, val)` per displayed value, the running
   * maximum, and the y range `[0, max + headroom]`.
   */
  method PlotTrend(values: seq<real>) returns (points: seq<(int, real)>, top: real)
    ensures |points| == |values| && forall i :: 0 <= i < |values| ==> points[i] == (i, values[i])
    ensures top == AxisTop(MaxOrZero(values))
    ensures forall i :: 0 <= i < |values| ==> values[i] < top
  {
    points := [];
    var maxVal := 0.0;
    var i := 0;
    while i < |values|
      invariant 0 <= i <= |values|
      invariant |points| == i && forall j :: 0 <= j < i ==> points[j] == (j, values[j])
      invariant maxVal == MaxOrZero(values[..i])
    {
      points := points + [(i, values[i])];
      MaxStep(values, i);
      if values[i] > maxVal {
        maxVal := values[i];
      }
      i := i + 1;
    }
    assert values[..i] == values;
    top := AxisTop(maxVal);
  }

  /** Extending the prefix by one value extends the running maximum as the loop does. */
  lemma {:induction false} MaxStep(s: seq<real>, i: nat)
    requires i < |s|
    ensures MaxOrZero(s[..i + 1]) == if s[i] > MaxOrZero(s[..i]) then s[i] else MaxOrZero(s[..i])
  {
    var m := MaxOrZero(s[..i + 1]);
    var p := MaxOrZero(s[..i]);
    assert s[..i + 1][..i] == s[..i];
    assert forall j :: 0 <= j < i ==> s[..i + 1][j] == s[..i][j];
    PrefixMaxBound(s[..i + 1], i);
  }

  /** The maximum of a sequence is the larger of its last element and the maximum of the rest. */
  lemma PrefixMaxBound(t: seq<real>, i: nat)
    requires |t| == i + 1
    ensures MaxOrZero(t) == if t[i] > MaxOrZero(t[..i]) then t[i] else MaxOrZero(t[..i])
  {
    var m := MaxOrZero(t);
    var p := MaxOrZero(t[..i]);
    assert forall j :: 0 <= j < i ==> t[..i][j] == t[j];
    if m != 0.0 {
      var k :| 0 <= k < |t| && t[k] == m;
      if k < i {
        assert t[..i][k] == m;
      }
    }
    if p != 0.0 {
      var k :| 0 <= k < i && t[..i][k] == p;
      assert t[k] == p;
    }
  }
}
