/** The fields display_clock of time.c prints for a number of seconds. */
module Clock {
  const TWO_32 := 0x1_0000_0000
  const TWO_31 := 0x8000_0000
  const SECS_IN_DAY := 24 * 60 * 60

  /** Conversion to a 32-bit int, modulo 2^32 (section 6.3.1.3 of C11, as gcc defines it). */
  function Int32(x: int): (w: int)
    ensures -TWO_31 <= w < TWO_31 && (x - w) % TWO_32 == 0
  {
    (x + TWO_31) % TWO_32 - TWO_31
  }

  /** Division and remainder truncate toward zero (section 6.5.5 of C11). */
  function Div(x: int, y: int): int
    requires y > 0
  {
    if x >= 0 then x / y else -((-x) / y)
  }

  function Rem(x: int, y: int): (r: int)
    requires y > 0
    ensures x == Div(x, y) * y + r && -y < r < y && (x >= 0 ==> r >= 0) && (x <= 0 ==> r <= 0)
  {
    if x >= 0 then x % y else -((-x) % y)
  }

  datatype Fields = Fields(days: int, hours: int, minutes: int, seconds: int)

  /** The days are printed only when there are some. The cast of the hours and minutes applies to a
      remainder, that of the seconds to the time itself. */
  function Display(t: int): Fields {
    var days := Div(t, SECS_IN_DAY);
    var hours, minutes := Div(Int32(Rem(t, SECS_IN_DAY)), 3600), Div(Int32(Rem(t, 3600)), 60);
    Fields(if days > 0 then days else 0, hours, minutes, Rem(Int32(t), 60))
  }

  function Total(f: Fields): int {
    f.days * SECS_IN_DAY + f.hours * 3600 + f.minutes * 60 + f.seconds
  }

  /** At minus one day and before, the days are not shown. After that days, hours and minutes are right and
      only the seconds can be wrong: the fields make up the time again exactly when the truncated second count
      still has the right seconds. */
  lemma TotalOrSeconds(t: int)
    ensures Display(t).days == Div(t, SECS_IN_DAY) <==> t > -SECS_IN_DAY
    ensures Display(t).hours == Div(Rem(t, SECS_IN_DAY), 3600) && Display(t).minutes == Div(Rem(t, 3600), 60)
    ensures Total(Display(t).(seconds := Rem(t, 60))) == t <==> t > -SECS_IN_DAY
    ensures Total(Display(t)) == t <==> t > -SECS_IN_DAY && Display(t).seconds == Rem(t, 60)
  {
    DaysShown(t);
    var d, h := Rem(t, SECS_IN_DAY), Rem(t, 3600);
    NestedRem(t, 24, 3600);
    NestedRem(t, 60, 60);
    Fits(d);
    Fits(h);
    hide Rem, Div, Int32;
    assert t == Div(t, SECS_IN_DAY) * SECS_IN_DAY + d;
    assert d == Div(d, 3600) * 3600 + h;
    assert h == Div(h, 60) * 60 + Rem(t, 60);
  }

  /** Days that are not shown are none exactly after minus one day. */
  lemma DaysShown(t: int)
    ensures Display(t).days == Div(t, SECS_IN_DAY) <==> t > -SECS_IN_DAY
    ensures t <= -SECS_IN_DAY ==> Display(t).days == 0
  {
  }

  /** A cast that loses nothing. */
  lemma Fits(x: int)
    requires -TWO_31 <= x < TWO_31
    ensures Int32(x) == x
  {
  }

  lemma NestedRem(t: int, a: int, b: int)
    requires a > 0 && b > 0
    ensures a * b > 0 && Rem(Rem(t, a * b), b) == Rem(t, b)
  {
    assert a * b > 0;
    if t >= 0 {
      NestedMod(t, a, b);
    } else {
      NestedMod(-t, a, b);
    }
  }

  lemma NestedMod(t: nat, a: int, b: int)
    requires a > 0 && b > 0
    ensures a * b > 0 && (t % (a * b)) % b == t % b
  {
    assert a * b > 0;
    var q, r := t / (a * b), t % (a * b);
    assert t == (q * a) * b + r;
    ModPlus(r, q * a, b);
  }

  lemma ModPlus(r: int, n: int, b: int)
    requires b > 0
    ensures (n * b + r) % b == r % b
  {
    var x := n * b + r;
    assert x == b * (x / b) + x % b && r == b * (r / b) + r % b;
    assert b * (n + r / b - x / b) == x % b - r % b;
    var m := n + r / b - x / b;
    MulBounds(b, m);
  }

  lemma MulBounds(b: int, m: int)
    requires b > 0
    ensures m > 0 ==> b * m >= b
    ensures m < 0 ==> b * m <= -b
  {
  }

  /** Which times are shown right: those after minus one day with the right seconds. With w the time as a
      32-bit int and k the multiples of 2^32 lost, that is when k is a multiple of 15, and the sign
      survived unless the seconds are 0. */
  lemma ShownRight(t: int)
    ensures var w := Int32(t); var k := (t - w) / TWO_32;
      && (Display(t).seconds == Rem(t, 60) <==> k % 15 == 0 && ((t >= 0 <==> w >= 0) || w % 60 == 0))
      && (Total(Display(t)) == t <==> t > -SECS_IN_DAY && (t < 0 || (k % 15 == 0 && (w >= 0 || w % 60 == 0))))
  {
    TotalOrSeconds(t);
    SecondsShown(t);
    if -SECS_IN_DAY < t < 0 {
      Fits(t);
    }
  }

  lemma SecondsShown(t: int)
    ensures var w := Int32(t); var k := (t - w) / TWO_32;
      Display(t).seconds == Rem(t, 60) <==> k % 15 == 0 && ((t >= 0 <==> w >= 0) || w % 60 == 0)
  {
    var w := Int32(t);
    var k := (t - w) / TWO_32;
    SecondsOf(w, k);
    assert t == w + k * TWO_32;
    RemMod(t);
    RemMod(w);
  }

  /** 2^32 is 16 modulo 60, and 16 * 15 is 0. */
  lemma SecondsOf(w: int, k: int)
    ensures (w + k * TWO_32) % 60 == w % 60 <==> k % 15 == 0
  {
    var j, r := k / 15, k % 15;
    var c := TWO_32 / 60;
    assert TWO_32 == 60 * c + 16;
    assert w + k * TWO_32 == (k * c + 4 * j) * 60 + (w + 16 * r);
    ModPlus(w + 16 * r, k * c + 4 * j, 60);
    assert (w + 16 * r) % 60 == w % 60 <==> (16 * r) % 60 == 0;
  }

  /** Truncating and Euclidean remainder differ for negative numbers that are no multiple of 60. */
  lemma RemMod(x: int)
    ensures Rem(x, 60) == if x >= 0 || x % 60 == 0 then x % 60 else x % 60 - 60
  {
  }

  predicate InRange(f: Fields) {
    0 <= f.days && 0 <= f.hours < 24 && 0 <= f.minutes < 60 && 0 <= f.seconds < 60
  }

  /** Before 2^31 every time is shown right, and with fields in their ranges. */
  lemma ShownRightUntil2038(t: int)
    requires 0 <= t < TWO_31
    ensures Total(Display(t)) == t
    ensures InRange(Display(t))
  {
    ShownRight(t);
    Fits(t);
    Fits(Rem(t, SECS_IN_DAY));
    Fits(Rem(t, 3600));
    hide Int32;
  }

  /** The first time that is not, and the last before 1970. */
  lemma FirstWrongTime()
    ensures Total(Display(TWO_31)) != TWO_31 && Display(TWO_31) == Fields(24855, 3, 14, -8)
    ensures Total(Display(-SECS_IN_DAY)) != -SECS_IN_DAY && Display(-SECS_IN_DAY) == Fields(0, 0, 0, 0)
  {
  }

  predicate Before(f: Fields, g: Fields) {
    f.days < g.days || (f.days == g.days && (f.hours < g.hours || (f.hours == g.hours &&
    (f.minutes < g.minutes || (f.minutes == g.minutes && f.seconds < g.seconds)))))
  }

  lemma BeforeIsLess(f: Fields, g: Fields)
    requires InRange(f) && InRange(g)
    ensures Before(f, g) <==> Total(f) < Total(g)
  {
  }

  /** The fields order as the times do. */
  lemma FieldsOrder(t: int, u: int)
    requires 0 <= t < TWO_31 && 0 <= u < TWO_31
    ensures Before(Display(t), Display(u)) <==> t < u
  {
    ShownRightUntil2038(t);
    ShownRightUntil2038(u);
    BeforeIsLess(Display(t), Display(u));
  }
}
