/**
 * The waiting routines of compat/delay.c that read the clock: time in seconds and
 * nanoseconds, the busy loop, and the delay that the Kalman filter corrects.
 */
module Delays {
  import opened Kalman

  const BILLION := 1000000000

  /** One carry of whole seconds. */
  function Carried(sec: int, nsec: int): (int, int) {
    if nsec >= BILLION then (sec + 1, nsec - BILLION) else (sec, nsec)
  }

  /** The conversion of a double to unsigned long, defined above -1. */
  function Whole(value: real): nat
    requires value > -1.0
  {
    if value < 0.0 then 0 else value.Floor
  }

  class Timespec {
    var tv_sec: int
    var tv_nsec: int

    ghost predicate Normal()
      reads this
    {
      0 <= tv_nsec < BILLION
    }

    ghost function Total(): int
      reads this
    {
      tv_sec * BILLION + tv_nsec
    }

    constructor (reading: nat)
      ensures Normal() && Total() == reading
    {
      tv_sec, tv_nsec := reading / BILLION, reading % BILLION;
    }

    method SetTo(reading: nat)
      modifies this
      ensures Normal() && Total() == reading
    {
      tv_sec, tv_nsec := reading / BILLION, reading % BILLION;
    }

    /** timespec_add_ulong */
    method AddUlong(value: nat)
      requires Normal()
      modifies this
      ensures Normal() && Total() == old(Total()) + value
    {
      tv_sec := tv_sec + value / BILLION;
      tv_nsec := tv_nsec + value % BILLION;
      if tv_nsec >= BILLION {
        tv_sec := tv_sec + 1;
        tv_nsec := tv_nsec - BILLION;
      }
    }

    /**
     * timespec_add_double: cuts off the fraction, so a value between -1 and 0 adds nothing,
     * and carries once, so the form stays normal only below two seconds.
     */
    method AddDouble(value: real)
      requires Normal() && value > -1.0
      modifies this
      ensures (tv_sec, tv_nsec) == Carried(old(tv_sec), old(tv_nsec) + Whole(value))
      ensures Total() == old(Total()) + Whole(value)
      ensures Normal() <==> old(tv_nsec) + Whole(value) < 2 * BILLION
    {
      tv_nsec := tv_nsec + Whole(value);
      if tv_nsec >= BILLION {
        tv_sec := tv_sec + 1;
        tv_nsec := tv_nsec - BILLION;
      }
    }

    /** timespec_add */
    method Add(tv1: Timespec)
      requires Normal() && tv1.tv_nsec >= 0
      modifies this
      ensures (tv_sec, tv_nsec) == Carried(old(tv_sec + tv1.tv_sec), old(tv_nsec + tv1.tv_nsec))
      ensures Total() == old(Total() + tv1.Total())
      ensures Normal() <==> old(tv_nsec + tv1.tv_nsec) < 2 * BILLION
    {
      tv_sec, tv_nsec := tv_sec + tv1.tv_sec, tv_nsec + tv1.tv_nsec;
      if tv_nsec >= BILLION {
        tv_nsec := tv_nsec - BILLION;
        tv_sec := tv_sec + 1;
      }
    }

    /** timespec_diff borrows before it subtracts; the difference is that of the totals. */
    method Diff(tv0: Timespec) returns (d: int)
      ensures d == Total() - tv0.Total()
    {
      var sec, nsec := tv_sec, tv_nsec;
      if nsec < tv0.tv_nsec {
        nsec := nsec + BILLION;
        sec := sec - 1;
      }
      d := (sec - tv0.tv_sec) * BILLION + (nsec - tv0.tv_nsec);
    }

    /** timespec_greaterthan is the order of totals on normal forms. */
    predicate GreaterThan(tv0: Timespec)
      reads this, tv0
      ensures Normal() && tv0.Normal() ==> (GreaterThan(tv0) <==> Total() > tv0.Total())
    {
      tv_sec > tv0.tv_sec || (tv0.tv_sec == tv_sec && tv_nsec > tv0.tv_nsec)
    }
  }

  /** The first reading after a deadline, or the number of readings. */
  predicate FirstAfter(deadline: int, readings: seq<nat>, i: nat) {
    && i <= |readings|
    && (i < |readings| ==> readings[i] > deadline)
    && forall j :: 0 <= j < i ==> readings[j] <= deadline
  }

  /** The latest clock reading that is not greater than the fields of a finish time. */
  function NotGreater(sec: int, nsec: int): int {
    sec * BILLION + if nsec < BILLION then nsec else BILLION - 1
  }

  /**
   * The loop that both delays end with; `readings` is what the clock would say. A finish
   * time that is not in normal form is passed as soon as its second is over.
   */
  method WaitFor(finish: Timespec, t2: Timespec, readings: seq<nat>) returns (i: nat)
    requires finish.tv_nsec >= 0 && finish != t2
    modifies t2
    ensures FirstAfter(NotGreater(finish.tv_sec, finish.tv_nsec), readings, i)
    ensures i < |readings| ==> t2.Normal() && t2.Total() == readings[i]
  {
    i := 0;
    while i < |readings|
      invariant i <= |readings| && finish.tv_nsec >= 0
      invariant forall j :: 0 <= j < i ==> readings[j] <= NotGreater(finish.tv_sec, finish.tv_nsec)
    {
      t2.SetTo(readings[i]);
      if t2.GreaterThan(finish) {
        return;
      }
      i := i + 1;
    }
  }

  /** delay_busyloop returns at the first reading that is later than asked, never before. */
  method DelayBusyloop(usec: nat, start: nat, readings: seq<nat>) returns (i: nat)
    ensures FirstAfter(start + usec * 1000, readings, i)
  {
    var t1 := new Timespec(start);
    var t2 := new Timespec(0);
    t1.AddUlong(usec * 1000);
    i := WaitFor(t1, t2, readings);
  }

  /** What is asked for, less the error that the filter predicts, in nanoseconds. */
  function Adjusted(usec: nat, x: real): real {
    usec as real * 1000.0 - x
  }

  /** The latest reading that does not end a wait of v from `start`: two carries are made, a third is not. */
  function Deadline(start: nat, v: nat): int {
    if start % BILLION + v < 3 * BILLION then start + v else (start / BILLION + 3) * BILLION - 1
  }

  /** delay_kalman: waits for the adjusted time and feeds the error it then measures back into the filter. */
  method DelayKalman(state: KalmanState, usec: nat, start: nat, readings: seq<nat>) returns (i: nat)
    requires Positive(state.View()) && Adjusted(usec, state.x) > -1.0
    modifies state
    ensures FirstAfter(Deadline(start, Whole(Adjusted(usec, old(state.x)))), readings, i)
    ensures state.View() ==
            if i == |readings| then old(state.View())
            else Updated(old(state.View()), (readings[i] - start - usec * 1000) as real)
  {
    hide Positive, Updated;
    var t1 := new Timespec(start);
    var t2 := new Timespec(0);
    var requested := new Timespec(0);
    var finish := new Timespec(start);
    SetFinish(requested, finish, start, Adjusted(usec, state.x));
    i := WaitFor(finish, t2, readings);
    if i < |readings| {
      var d := t2.Diff(t1);
      state.Update((d - usec * 1000) as real);
    }
  }

  /** The requested time, and the finish time from the current one. */
  method SetFinish(requested: Timespec, finish: Timespec, ghost start: nat, value: real)
    requires requested != finish && value > -1.0
    requires requested.Normal() && requested.Total() == 0
    requires finish.Normal() && finish.Total() == start
    modifies requested, finish
    ensures finish.tv_nsec >= 0 && NotGreater(finish.tv_sec, finish.tv_nsec) == Deadline(start, Whole(value))
  {
    assert finish.tv_sec == start / BILLION && finish.tv_nsec == start % BILLION;
    requested.AddDouble(value);
    finish.Add(requested);
  }

  /**
   * Every wait is as long as the adjusted time if and only if the nanoseconds of the
   * current time and the adjusted time are less than three seconds together; from there
   * on a reading that is no later than asked ends the wait.
   */
  lemma LongEnoughIff(start: nat, v: nat)
    ensures start % BILLION + v < 3 * BILLION
        <==> forall readings, i: nat ::
               FirstAfter(Deadline(start, v), readings, i) && i < |readings| ==> readings[i] > start + v
  {
    if start % BILLION + v >= 3 * BILLION {
      var readings := [(start / BILLION + 3) * BILLION];
      assert FirstAfter(Deadline(start, v), readings, 0);
      assert readings[0] <= start + v;
    }
  }

  /** So below that a delay is shorter than asked by less than the error predicted. */
  lemma EarlyByAtMost(usec: nat, x: real, start: nat, readings: seq<nat>, i: nat)
    requires Adjusted(usec, x) > -1.0 && start % BILLION + Whole(Adjusted(usec, x)) < 3 * BILLION
    requires i < |readings| && FirstAfter(Deadline(start, Whole(Adjusted(usec, x))), readings, i)
    ensures (readings[i] - start) as real > usec as real * 1000.0 - x
  {
    var a := Adjusted(usec, x);
    assert a < a.Floor as real + 1.0;
    assert readings[i] - start >= Whole(a) + 1;
  }

  /** And never longer: a reading later than the adjusted time ends the wait at the latest. */
  lemma NoLaterThan(usec: nat, x: real, start: nat, readings: seq<nat>, i: nat, j: nat)
    requires Adjusted(usec, x) > -1.0 && FirstAfter(Deadline(start, Whole(Adjusted(usec, x))), readings, i)
    requires j < |readings| && readings[j] > start && (readings[j] - start) as real > usec as real * 1000.0 - x
    ensures i <= j
  {
    var a := Adjusted(usec, x);
    assert a.Floor as real <= a;
    assert Deadline(start, Whole(a)) <= start + Whole(a) < readings[j];
  }

  /** Five seconds asked for on a full second are over after three. */
  method FiveSecondsEndEarly() returns (early: bool)
    ensures early
  {
    var requested := new Timespec(0);
    var finish := new Timespec(0);
    var t2 := new Timespec(0);
    SetFinish(requested, finish, 0, 5000000000.0);
    assert Whole(5000000000.0) == 5 * BILLION;
    var readings := [3 * BILLION];
    var i := WaitFor(finish, t2, readings);
    assert readings[0] > Deadline(0, 5 * BILLION);
    early := i == 0;
  }

  // ----- what the feedback settles on -----

  /** A wait that overshoots its adjusted time by e measures e less the prediction. */
  function Overshot(f: Filter, e: real): Filter
    requires Positive(f)
  {
    Updated(f, e - f.x)
  }

  function Repeated(f: Filter, e: real, n: nat): (g: Filter)
    requires Positive(f)
    ensures Positive(g)
  {
    if n == 0 then f
    else
      var g := Repeated(f, e, n - 1);
      UpdateBounds(g, e - g.x);
      Overshot(g, e)
  }

  /** The error is measured after the correction, so the prediction is drawn to half the overshoot. */
  lemma DrawnToHalf(f: Filter, e: real)
    requires Positive(f)
    ensures var g := Overshot(f, e); g.x - e / 2.0 == (1.0 - 2.0 * g.k) * (f.x - e / 2.0) && 0.0 < g.k < 1.0
  {
    UpdateBounds(f, e - f.x);
    var g := Overshot(f, e);
    Unfold(f.x, g.k, e / 2.0);
    hide Positive;
  }

  lemma Unfold(x: real, k: real, h: real)
    ensures x + k * (2.0 * h - x - x) - h == (1.0 - 2.0 * k) * (x - h)
  {
  }

  lemma Shrinks(k: real, d: real, w: real)
    requires 0.0 < k < 1.0 && w == (1.0 - 2.0 * k) * d
    ensures if d == 0.0 then w == 0.0 else Abs(w) < Abs(d)
  {
    var kd := k * d;
    Opened(k, d, kd);
    if d > 0.0 {
      ProductPositive(k, d, kd);
      ProductPositive(1.0 - k, d, d - kd);
    } else if d < 0.0 {
      ProductPositive(k, -d, -kd);
      ProductPositive(1.0 - k, -d, kd - d);
    }
  }

  lemma Opened(k: real, d: real, kd: real)
    requires kd == k * d
    ensures (1.0 - 2.0 * k) * d == d - 2.0 * kd
    ensures (1.0 - k) * d == d - kd && k * -d == -kd && (1.0 - k) * -d == kd - d
    ensures d == 0.0 ==> kd == 0.0
  {
  }

  lemma StepNearsHalf(f: Filter, e: real)
    requires Positive(f)
    ensures
      var g := Overshot(f, e);
      if f.x == e / 2.0 then g.x == e / 2.0 else Abs(g.x - e / 2.0) < Abs(f.x - e / 2.0)
  {
    hide Overshot, Positive, Abs;
    DrawnToHalf(f, e);
    var g := Overshot(f, e);
    Shrinks(g.k, f.x - e / 2.0, g.x - e / 2.0);
  }

  /** In every run with a constant overshoot the prediction comes nearer to half of it with every update. */
  lemma {:induction false} NearsHalf(f: Filter, e: real, n: nat, m: nat)
    requires Positive(f) && n < m
    ensures
      var x, y := Repeated(f, e, n).x, Repeated(f, e, m).x;
      if x == e / 2.0 then y == e / 2.0 else Abs(y - e / 2.0) < Abs(x - e / 2.0)
    decreases m
  {
    hide Repeated, Overshot, Updated;
    RepeatedStep(f, e, m);
    StepNearsHalf(Repeated(f, e, m - 1), e);
    if n < m - 1 {
      NearsHalf(f, e, n, m - 1);
    }
  }

  /** The share of the distance to the half that an update leaves at most, over q + 2r. */
  function Left(f: Filter): real {
    if f.q > 2.0 * f.r then f.q else 2.0 * f.r
  }

  lemma GainNear(f: Filter, m: real)
    requires Positive(f) && f.p < f.r
    ensures var k := Updated(f, m).k;
            && (1.0 - 2.0 * k) * (f.q + 2.0 * f.r) <= Left(f)
            && (2.0 * k - 1.0) * (f.q + 2.0 * f.r) <= Left(f)
  {
    UpdateBounds(f, m);
    Gain(f, m);
    hide Updated;
    GainNearer(f.p + f.q, f.q, f.r, Updated(f, m).k);
  }

  lemma GainNearer(s: real, q: real, r: real, k: real)
    requires 0.0 < q < s < q + r && k * (s + r) == s
    ensures (1.0 - 2.0 * k) * (q + 2.0 * r) <= 2.0 * r
    ensures (2.0 * k - 1.0) * (q + 2.0 * r) <= q
  {
    var c, d := q + 2.0 * r, s + r;
    BelowHalf(s, q, r);
    AboveHalf(s, q, r);
    Twice(k, d, s);
    Unscaled(1.0 - 2.0 * k, c, d, r - s, 2.0 * r);
    Unscaled(2.0 * k - 1.0, c, d, s - r, q);
  }

  lemma Twice(k: real, d: real, s: real)
    requires k * d == s
    ensures (1.0 - 2.0 * k) * d == d - 2.0 * s && (2.0 * k - 1.0) * d == 2.0 * s - d
  {
  }

  lemma BelowHalf(s: real, q: real, r: real)
    requires 0.0 < q < s && r > 0.0
    ensures (r - s) * (q + 2.0 * r) <= 2.0 * r * (s + r)
  {
    Positive2(r, s);
    Positive2(s, q);
    Positive2(r, s - q);
    assert 2.0 * r * (s + r) - (r - s) * (q + 2.0 * r) == 3.0 * (r * s) + s * q + r * (s - q);
  }

  lemma AboveHalf(s: real, q: real, r: real)
    requires 0.0 < r && s < q + r
    ensures (s - r) * (q + 2.0 * r) <= q * (s + r)
  {
    Positive2(r, q + r - s);
    assert q * (s + r) - (s - r) * (q + 2.0 * r) == 2.0 * (r * (q + r - s));
  }

  lemma Unscaled(x: real, c: real, d: real, u: real, b: real)
    requires d > 0.0 && x * d == u && u * c <= b * d
    ensures x * c <= b
  {
    assert (x * c) * d == (x * d) * c;
    NotAbove(x * c, b, d);
  }

  lemma Share(x: real, c: real, d: real, w: real, l: real)
    requires w == x * d && x * c <= l && -(x * c) <= l
    ensures Abs(w) * c <= l * Abs(d)
  {
    if d >= 0.0 {
      Nonneg(l - x * c, d);
      Nonneg(l + x * c, d);
      assert (l - x * c) * d == l * d - w * c && (l + x * c) * d == l * d + w * c;
    } else {
      Nonneg(l - x * c, -d);
      Nonneg(l + x * c, -d);
      assert (l - x * c) * -d == l * -d + w * c && (l + x * c) * -d == l * -d - w * c;
    }
  }

  lemma Negated(k: real, c: real)
    ensures -((1.0 - 2.0 * k) * c) == (2.0 * k - 1.0) * c
  {
  }

  lemma StepShare(f: Filter, e: real)
    requires Positive(f) && f.p < f.r
    ensures
      var g := Overshot(f, e);
      && Abs(g.x - e / 2.0) * (f.q + 2.0 * f.r) <= Left(f) * Abs(f.x - e / 2.0)
      && Positive(g) && g.p < g.r && g.q == f.q && g.r == f.r
  {
    UpdateBounds(f, e - f.x);
    DrawnToHalf(f, e);
    GainNear(f, e - f.x);
    var g := Overshot(f, e);
    hide Updated, Left, Abs, Positive;
    Negated(g.k, f.q + 2.0 * f.r);
    Share(1.0 - 2.0 * g.k, f.q + 2.0 * f.r, f.x - e / 2.0, g.x - e / 2.0, Left(f));
  }

  /**
   * The rate, from the first update on (which leaves p < r): n more updates leave of the
   * distance at most (max(q, 2r) / (q + 2r))^n.
   */
  lemma {:induction false} HalfRate(f: Filter, e: real, n: nat)
    requires Positive(f) && f.p < f.r
    ensures
      var g := Repeated(f, e, n);
      && Abs(g.x - e / 2.0) * Power(f.q + 2.0 * f.r, n) <= Power(Left(f), n) * Abs(f.x - e / 2.0)
      && g.p < g.r && g.q == f.q && g.r == f.r
    decreases n
  {
    hide Repeated, Overshot, Updated, Abs;
    RepeatedNone(f, e);
    if n > 0 {
      HalfRate(f, e, n - 1);
      RepeatedStep(f, e, n);
      var g := Repeated(f, e, n - 1);
      StepShare(g, e);
      GeometricStep(Abs(Overshot(g, e).x - e / 2.0), Abs(g.x - e / 2.0), Abs(f.x - e / 2.0),
                    f.q + 2.0 * f.r, Left(f), n - 1);
    }
  }

  lemma RepeatedNone(f: Filter, e: real)
    requires Positive(f)
    ensures Repeated(f, e, 0) == f
  {
  }

  lemma RepeatedStep(f: Filter, e: real, n: nat)
    requires Positive(f) && n > 0
    ensures Repeated(f, e, n) == Overshot(Repeated(f, e, n - 1), e)
  {
    hide Overshot;
  }
}
