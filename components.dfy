/**
 * The two stateful widgets of the UI component library: the budget progress bar, whose fill and
 * colour follow the share of the budget spent, and the animated page stack, whose slide guard
 * lets at most one page transition run at a time.  Geometry, easing and timing are left out.
 */
module Components {
  import opened Wrappers
  import Forecast

  // ---------------------------------------------------------------- BudgetProgressBar

  /** Python's `int(x)` on a float: truncation toward zero. */
  function Trunc(x: real): (r: int)
    ensures x >= 0.0 ==> 0 <= r && r as real <= x < r as real + 1.0
    ensures x < 0.0 ==> r <= 0 && r as real - 1.0 < x <= r as real
  {
    if x >= 0.0 then x.Floor else -((-x).Floor)
  }

  /** Truncation toward zero never decreases when its argument grows. */
  lemma TruncMonotone(x: real, y: real)
    requires x <= y
    ensures Trunc(x) <= Trunc(y)
  {
  }

  /** The share of `total` that `current` is, in hundredths: the ratio the bar truncates. */
  function Share(current: real, total: real): (q: real)
    requires total > 0.0
    ensures q * total == current * 100.0
    ensures current >= total ==> q >= 100.0
    ensures current < total ==> q < 100.0
    ensures current >= 0.0 ==> q >= 0.0
    ensures current < 0.0 ==> q < 0.0
  {
    var q := (current / total) * 100.0;
    ShareScale(current, total, q);
    q
  }

  lemma ShareScale(current: real, total: real, q: real)
    requires total > 0.0 && q == (current / total) * 100.0
    ensures q * total == current * 100.0
    ensures current >= total ==> q >= 100.0
    ensures current < total ==> q < 100.0
    ensures current >= 0.0 ==> q >= 0.0
    ensures current < 0.0 ==> q < 0.0
  {
    var c := current / total;
    assert c * total == current;
    assert q * total == c * total * 100.0;
    assert current < total ==> c < 1.0;
    assert current >= total ==> c >= 1.0;
    assert current < 0.0 ==> c < 0.0;
    assert current >= 0.0 ==> c >= 0.0;
  }

  /**
   * The percentage `set_status(current, total)` computes: 0 without a positive total, otherwise
   * `int(current / total * 100)` capped at 100.  It reaches 100 exactly when the budget is spent,
   * and lies in [0, 100] whenever the spending is not negative.
   */
  function BudgetPercent(current: real, total: real): (p: int)
    ensures total <= 0.0 ==> p == 0
    ensures total > 0.0 ==> p <= 100 && (p == 100 <==> current >= total)
    ensures total > 0.0 && 0.0 <= current < total ==>
              p as real * total <= current * 100.0 < (p + 1) as real * total
    ensures total > 0.0 && current >= 0.0 ==> 0 <= p
    ensures total > 0.0 && current < 0.0 ==> p <= 0
  {
    if total <= 0.0 then 0
    else
      var q := Share(current, total);
      var p := Trunc(q);
      Bracket(current, total, q, p);
      if p < 100 then p else 100
  }

  lemma Bracket(current: real, total: real, q: real, p: int)
    requires total > 0.0 && q * total == current * 100.0
    requires current >= 0.0 ==> p as real <= q < p as real + 1.0
    ensures 0.0 <= current ==> (p as real) * total <= current * 100.0
    ensures 0.0 <= current ==> current * 100.0 < ((p + 1) as real) * total
  {
    if 0.0 <= current {
      assert (p + 1) as real == p as real + 1.0;
      ScaleBelow(p as real, q, total);
      ScaleBelow(q, (p + 1) as real, total);
      assert q * total < (p + 1) as real * total;
      assert p as real * total <= q * total;
      assert current * 100.0 < ((p + 1) as real) * total;
    }
  }

  lemma ScaleBelow(x: real, y: real, t: real)
    requires t > 0.0 && x <= y
    ensures x * t <= y * t && (x < y ==> x * t < y * t)
  {
    assert y * t - x * t == (y - x) * t;
  }

  /** Spending more never shows a smaller percentage of the same budget. */
  lemma PercentMonotone(c1: real, c2: real, total: real)
    requires c1 <= c2
    ensures BudgetPercent(c1, total) <= BudgetPercent(c2, total)
  {
    if total > 0.0 {
      ShareMonotone(c1, c2, total);
      TruncMonotone(Share(c1, total), Share(c2, total));
    }
  }

  lemma ShareMonotone(c1: real, c2: real, total: real)
    requires c1 <= c2 && total > 0.0
    ensures Share(c1, total) <= Share(c2, total)
  {
    var q1 := Share(c1, total);
    var q2 := Share(c2, total);
    assert (q2 - q1) * total == (c2 - c1) * 100.0;
    SignOfProduct(q2 - q1, total);
  }

  lemma SignOfProduct(a: real, b: real)
    requires b > 0.0 && a * b >= 0.0
    ensures a >= 0.0
  {
    assert a == (a * b) / b;
  }

  /** The chunk colours of the bar's style sheet. */
  datatype BarColour = AccentPrimary | AccentWarning | AccentDanger

  /** The bar's style sheet: the muted track alone, or the track with a chunk of some colour. */
  datatype BarStyle = TrackOnly | Chunk(colour: BarColour)

  /** Danger above 90, warning above 75 up to 90, the primary accent otherwise. */
  function ColourFor(p: int): (c: BarColour)
    ensures c == AccentDanger <==> p > 90
    ensures c == AccentWarning <==> 75 < p <= 90
    ensures c == AccentPrimary <==> p <= 75
  {
    if p > 90 then AccentDanger
    else if p > 75 then AccentWarning
    else AccentPrimary
  }

  /** The style sheet `set_status` installs: no chunk rule without a positive total. */
  function StyleFor(current: real, total: real): (s: BarStyle)
    ensures total <= 0.0 ==> s == TrackOnly
    ensures total > 0.0 ==> s == Chunk(ColourFor(BudgetPercent(current, total)))
  {
    if total <= 0.0 then TrackOnly else Chunk(ColourFor(BudgetPercent(current, total)))
  }

  /** A spent budget always shows in the danger colour. */
  lemma OverBudgetIsDanger(current: real, total: real)
    requires total > 0.0 && current >= total
    ensures StyleFor(current, total) == Chunk(AccentDanger)
  {
  }

  /**
   * The dashboard feeds the bar the month's spending and the forecast its prediction, which is
   * never below the spending: whenever the bar turns red, the forecast is not "safe".
   */
  lemma DangerBarIsNotSafeForecast(current: real, predicted: real, total: real)
    requires total > 0.0 && current <= predicted
    requires StyleFor(current, total) == Chunk(AccentDanger)
    ensures Forecast.Classify(predicted, total) != Forecast.Safe
  {
    var p := BudgetPercent(current, total);
    if current < total {
      var q := Share(current, total);
      assert p == Trunc(q) && p >= 91;
      assert q >= 0.0 && 91.0 <= p as real <= q;
      AboveNinety(current, total, q);
    }
    assert current > total * 0.9;
  }

  lemma AboveNinety(current: real, total: real, q: real)
    requires total > 0.0 && q >= 91.0 && q * total == current * 100.0
    ensures current > total * 0.9
  {
    ScaleBelow(91.0, q, total);
  }

  /** `BudgetProgressBar`: its value and its style sheet. */
  class BudgetBar {
    var value: int
    var style: BarStyle

    /** A fresh bar has the primary chunk colour and Qt's reset value, one below the minimum 0. */
    constructor ()
      ensures value == -1 && style == Chunk(AccentPrimary)
    {
      value := -1;
      style := Chunk(AccentPrimary);
    }

    /** `set_status(current, total)`: the style for the percentage, then `setValue(percentage)`. */
    method SetStatus(current: real, total: real)
      modifies this
      ensures value == BudgetPercent(current, total)
      ensures style == StyleFor(current, total)
    {
      var percentage: int;
      if total <= 0.0 {
        percentage := 0;
        style := TrackOnly;
      } else {
        percentage := Trunc(Share(current, total));
        if percentage > 100 {
          percentage := 100;
        }
        var colour := AccentPrimary;
        if percentage > 90 {
          colour := AccentDanger;
        } else if percentage > 75 {
          colour := AccentWarning;
        }
        style := Chunk(colour);
      }
      value := percentage;
    }
  }

  // ---------------------------------------------------------------- AnimatedStackedWidget

  /**
   * The state of the animated stack: the number of pages, the current index (-1 while there is
   * none), `m_active`, and the index the running animation group will show when it finishes.
   */
  datatype Pager = Pager(count: nat, current: int, active: bool, pending: Option<int>)

  /** The states the widget can be in: a current page when there are pages, and a pending target only during an animation. */
  predicate PagerValid(p: Pager) {
    (p.count == 0 ==> p.current == -1) &&
    (p.count > 0 ==> 0 <= p.current < p.count) &&
    (p.pending.Some? ==> p.active && 0 <= p.pending.value < p.count && p.pending.value != p.current)
  }

  /** `addWidget`: one more page; the first page added becomes the current one. */
  function AddPage(p: Pager): (q: Pager)
    requires PagerValid(p)
    ensures PagerValid(q)
    ensures q.count == p.count + 1 && q.active == p.active && q.pending == p.pending
    ensures q.current == if p.count == 0 then 0 else p.current
  {
    p.(count := p.count + 1, current := if p.count == 0 then 0 else p.current)
  }

  /**
   * `slideInIdx(index)`: nothing when the index is the current one or an animation runs;
   * otherwise `m_active` is set and, when the index names a page, an animation towards it starts.
   * The flag is set before `self.widget(index)` is used, so an index naming no page raises
   * AttributeError with the flag left set and no animation to clear it.
   */
  function Slide(p: Pager, index: int): (r: (Pager, bool))
    ensures p.active || index == p.current ==> r == (p, false)
    ensures !p.active && index != p.current ==>
              r.0.active && r.0.count == p.count && r.0.current == p.current &&
              (r.1 <==> !(0 <= index < p.count)) &&
              r.0.pending == (if r.1 then None else Some(index))
  {
    if index == p.current || p.active then (p, false)
    else if 0 <= index < p.count then (p.(active := true, pending := Some(index)), false)
    else (p.(active := true, pending := None), true)
  }

  /**
   * `_on_animation_finished(index)`: the index becomes current and `m_active` is cleared.  For
   * an index naming no page Qt ignores `setCurrentIndex` and `self.widget(index).move` raises
   * before the flag is cleared.  The animation group has run out, so nothing is pending.
   */
  function Finished(p: Pager, index: int): (r: (Pager, bool))
    ensures r.0.count == p.count && r.0.pending == None
    ensures r.1 <==> !(0 <= index < p.count)
    ensures !r.1 ==> r.0.current == index && !r.0.active
    ensures r.1 ==> r.0.current == p.current && r.0.active == p.active
  {
    if 0 <= index < p.count then (p.(current := index, active := false, pending := None), false)
    else (p.(pending := None), true)
  }

  /** The guard is the whole story: a slide changes the state exactly when it is not idle-blocked. */
  lemma SlideChangesIff(p: Pager, index: int)
    ensures Slide(p, index).0 != p <==> !p.active && index != p.current
  {
  }

  /** Both steps keep the widget in a valid state. */
  lemma SlideKeepsValid(p: Pager, index: int)
    requires PagerValid(p)
    ensures PagerValid(Slide(p, index).0)
  {
  }

  lemma FinishKeepsValid(p: Pager)
    requires PagerValid(p) && p.pending.Some?
    ensures PagerValid(Finished(p, p.pending.value).0)
  {
  }

  /** While an animation runs no second one can start: the pending target stays the one already chosen. */
  lemma OneTransitionAtATime(p: Pager, index: int)
    requires p.active
    ensures Slide(p, index).0.pending == p.pending
  {
  }

  /** A slide to another page followed by its animation's end shows that page and clears the flag. */
  lemma SlideThenFinish(p: Pager, index: int)
    requires PagerValid(p) && !p.active && 0 <= index < p.count && index != p.current
    ensures var q := Slide(p, index).0;
            q.pending == Some(index) &&
            Finished(q, index).0 == Pager(p.count, index, false, None)
  {
  }

  /** The events the widget sees: a page request or the end of the running animation. */
  datatype Event = Request(index: int) | AnimationEnd

  /** The state after a sequence of events; an animation end with nothing pending does nothing. */
  function Run(p: Pager, es: seq<Event>): (q: Pager)
    ensures q.count == p.count
    decreases |es|
  {
    if es == [] then p
    else
      var next := match es[0]
        case Request(i) => Slide(p, i).0
        case AnimationEnd => if p.pending.Some? then Finished(p, p.pending.value).0 else p;
      Run(next, es[1..])
  }

  /** Every reachable state is valid: at most one transition, towards a real page other than the current one. */
  lemma {:induction false} RunKeepsValid(p: Pager, es: seq<Event>)
    requires PagerValid(p)
    ensures PagerValid(Run(p, es))
    decreases |es|
  {
    if es != [] {
      match es[0]
      case Request(i) =>
        SlideKeepsValid(p, i);
        RunKeepsValid(Slide(p, i).0, es[1..]);
      case AnimationEnd =>
        if p.pending.Some? {
          FinishKeepsValid(p);
          RunKeepsValid(Finished(p, p.pending.value).0, es[1..]);
        } else {
          RunKeepsValid(p, es[1..]);
        }
    }
  }

  /** After a request for an index naming no page the widget is locked: no later event changes anything. */
  lemma {:induction false} LockedStaysLocked(p: Pager, es: seq<Event>)
    requires p.active && p.pending.None?
    ensures Run(p, es) == p
    decreases |es|
  {
    if es != [] {
      LockedStaysLocked(p, es[1..]);
    }
  }

  /** `AnimatedStackedWidget`: the pager state as fields. */
  class StackedPages {
    var count: nat
    var current: int
    var active: bool
    var pending: Option<int>

    function State(): Pager
      reads this
    {
      Pager(count, current, active, pending)
    }

    /** The widget's invariant: its fields form a valid pager state. */
    predicate Valid()
      reads this
    {
      PagerValid(State())
    }

    /** An empty stack, with no current page and no animation. */
    constructor ()
      ensures State() == Pager(0, -1, false, None)
      ensures Valid()
    {
      count := 0;
      current := -1;
      active := false;
      pending := None;
    }

    method AddWidget()
      requires Valid()
      modifies this
      ensures State() == AddPage(old(State()))
      ensures Valid()
    {
      count := count + 1;
      if current == -1 {
        current := 0;
      }
    }

    /** `slideInIdx(index)`; `raised` reports the AttributeError for an index naming no page. */
    method SlideInIdx(index: int) returns (raised: bool)
      requires Valid()
      modifies this
      ensures (State(), raised) == Slide(old(State()), index)
      ensures Valid()
    {
      SlideKeepsValid(State(), index);
      raised := false;
      if index == current || active {
        return;
      }
      active := true;
      if 0 <= index < count {
        pending := Some(index);
      } else {
        pending := None;
        raised := true;
      }
    }

    /** `_on_animation_finished(index)`, run when the animation group's `finished` signal fires. */
    method OnAnimationFinished(index: int) returns (raised: bool)
      requires Valid()
      modifies this
      ensures (State(), raised) == Finished(old(State()), index)
      ensures Valid()
    {
      pending := None;
      if 0 <= index < count {
        current := index;
        active := false;
        raised := false;
      } else {
        raised := true;
      }
    }
  }
}
