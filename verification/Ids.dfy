/** Monotonic identifiers: fixed-width base-32 printing, and the generator that bumps a counter within one
    millisecond. */
module Ids {
  import opened Prelude

  const CROCKFORD := "0123456789ABCDEFGHJKMNPQRSTVWXYZ"
  const TWO_50 := 0x4_0000_0000_0000
  const TWO_80 := 0x1_0000_0000_0000_0000_0000

  function Digit(d: nat): char requires d < 32 { CROCKFORD[d] }

  function Pow32(n: nat): nat { if n == 0 then 1 else 32 * Pow32(n - 1) }

  /** The low `length` base-32 digits of `value`, most significant first. */
  function B32(value: nat, length: nat): (s: string)
    ensures |s| == length
  {
    if length == 0 then "" else B32(value / 32, length - 1) + [Digit(value % 32)]
  }

  function Reversed(s: string): string { if s == [] then [] else Reversed(s[1..]) + [s[0]] }

  lemma {:induction false} ReversedAppend(s: string, c: char)
    ensures Reversed(s + [c]) == [c] + Reversed(s)
  {
    if s != [] {
      ReversedAppend(s[1..], c);
      assert (s + [c])[1..] == s[1..] + [c];
    } else {
      assert s + [c] == [c];
    }
  }

  /** The digits are produced low end first and then reversed. */
  method PrintB32(value: nat, length: nat) returns (s: string)
    ensures s == B32(value, length)
  {
    var out, rest := "", value;
    for i := 0 to length
      invariant B32(value, length) == B32(rest, length - i) + Reversed(out)
    {
      assert B32(rest, length - i) == B32(rest / 32, length - i - 1) + [Digit(rest % 32)];
      ReversedAppend(out, Digit(rest % 32));
      out := out + [Digit(rest % 32)];
      rest := rest / 32;
    }
    s := Reversed(out);
    assert B32(rest, 0) + s == s;
  }

  // -- printing preserves order ------------------------------------------------------

  /** Python's string order. */
  predicate LexLess(s: string, t: string) {
    if s == [] then t != []
    else t != [] && (s[0] < t[0] || (s[0] == t[0] && LexLess(s[1..], t[1..])))
  }

  /** The alphabet: the ten digits, then the capital letters in order but for I, L, O and U. */
  lemma Alphabet()
    ensures |CROCKFORD| == 32
    ensures forall c: char :: c in CROCKFORD <==>
              '0' <= c <= '9' || ('A' <= c <= 'Z' && c != 'I' && c != 'L' && c != 'O' && c != 'U')
    ensures forall i, j | 0 <= i < j < 32 :: CROCKFORD[i] < CROCKFORD[j]
  {
    var text := CROCKFORD;
    assert forall i | 0 <= i < 31 :: text[i] < text[i + 1];
    forall i, j | 0 <= i < j < 32 ensures text[i] < text[j] { Ascending(i, j); }
    assert forall i | 0 <= i < 32 :: text[i] as int == Code(i);
    Spelled(text);
  }

  /** The code of the digit worth `i`. */
  function Code(i: nat): nat {
    i + if i < 10 then 48 else if i < 18 then 55 else if i < 20 then 56 else if i < 22 then 57
        else if i < 27 then 58 else 59
  }

  lemma Spelled(text: string)
    requires |text| == 32 && forall i | 0 <= i < 32 :: text[i] as int == Code(i)
    ensures forall c: char :: c in text <==>
              '0' <= c <= '9' || ('A' <= c <= 'Z' && c != 'I' && c != 'L' && c != 'O' && c != 'U')
  {
    forall c: char | '0' <= c <= '9' || ('A' <= c <= 'Z' && c != 'I' && c != 'L' && c != 'O' && c != 'U')
      ensures c in text
    {
      var n := c as int;
      var i := n - if c <= '9' then 48 else if c < 'I' then 55 else if c < 'L' then 56 else if c < 'O' then 57
                   else if c < 'U' then 58 else 59;
      assert text[i] as int == Code(i) == n;
    }
  }

  lemma DigitsOrdered(a: nat, b: nat)
    requires a < 32 && b < 32
    ensures a < b <==> Digit(a) < Digit(b)
  {
    assert forall i | 0 <= i < 31 :: CROCKFORD[i] < CROCKFORD[i + 1];
    Ascending(a, b);
    Ascending(b, a);
  }

  lemma {:induction false} Ascending(a: nat, b: nat)
    requires b < 32 && forall i | 0 <= i < 31 :: CROCKFORD[i] < CROCKFORD[i + 1]
    ensures a < b ==> CROCKFORD[a] < CROCKFORD[b]
  {
    if a < b {
      Ascending(a, b - 1);
      assert CROCKFORD[b - 1] < CROCKFORD[b - 1 + 1];
    }
  }

  lemma {:induction false} LexLessSnoc(s: string, t: string, a: char, b: char)
    requires |s| == |t|
    ensures LexLess(s + [a], t + [b]) <==> LexLess(s, t) || (s == t && a < b)
  {
    if s == [] {
      assert s + [a] == [a] && t + [b] == [b];
    } else {
      assert (s + [a])[1..] == s[1..] + [a] && (t + [b])[1..] == t[1..] + [b];
      LexLessSnoc(s[1..], t[1..], a, b);
      assert s == t <==> s[0] == t[0] && s[1..] == t[1..] by {
        assert s == [s[0]] + s[1..] && t == [t[0]] + t[1..];
      }
    }
  }

  lemma {:induction false} LexLessPrefix(p: string, s: string, t: string)
    ensures LexLess(p + s, p + t) <==> LexLess(s, t)
  {
    if p == [] {
      assert p + s == s && p + t == t;
    } else {
      assert (p + s)[1..] == p[1..] + s && (p + t)[1..] == p[1..] + t;
      LexLessPrefix(p[1..], s, t);
    }
  }

  /** Fixed-width printing is injective and carries numeric order to string order, and back. */
  lemma {:induction false} B32PreservesOrder(v: nat, w: nat, n: nat)
    requires v < Pow32(n) && w < Pow32(n)
    ensures LexLess(B32(v, n), B32(w, n)) <==> v < w
    ensures B32(v, n) == B32(w, n) <==> v == w
  {
    if n != 0 {
      B32PreservesOrder(v / 32, w / 32, n - 1);
      var s, t := B32(v / 32, n - 1), B32(w / 32, n - 1);
      LexLessSnoc(s, t, Digit(v % 32), Digit(w % 32));
      DigitsOrdered(v % 32, w % 32);
      DigitsOrdered(w % 32, v % 32);
      assert (s + [Digit(v % 32)])[..n - 1] == s && (t + [Digit(w % 32)])[..n - 1] == t;
      assert (s + [Digit(v % 32)])[n - 1] == Digit(v % 32) && (t + [Digit(w % 32)])[n - 1] == Digit(w % 32);
    }
  }

  lemma {:induction false} LexLessConcat(a: string, b: string, x: string, y: string)
    requires |a| == |b|
    ensures LexLess(a + x, b + y) <==> LexLess(a, b) || (a == b && LexLess(x, y))
  {
    if a == [] {
      assert a + x == x && b + y == y;
    } else {
      assert (a + x)[1..] == a[1..] + x && (b + y)[1..] == b[1..] + y;
      LexLessConcat(a[1..], b[1..], x, y);
      assert a == [a[0]] + a[1..] && b == [b[0]] + b[1..];
    }
  }

  /** Printing truncates: whatever lies above the low `n` digits is lost. */
  lemma {:induction false} B32Truncates(v: nat, q: nat, n: nat)
    ensures Pow32(n) * q >= 0 && B32(v + Pow32(n) * q, n) == B32(v, n)
  {
    if n != 0 {
      var t := Pow32(n - 1) * q;
      assert Pow32(n) * q == 32 * t by { Regroup(Pow32(n - 1), q); }
      assert (v + 32 * t) / 32 == v / 32 + t && (v + 32 * t) % 32 == v % 32;
      B32Truncates(v / 32, q, n - 1);
    }
  }

  lemma Regroup(p: nat, q: nat)
    ensures (32 * p) * q == 32 * (p * q)
  {}

  lemma Widths()
    ensures Pow32(10) == TWO_50 && Pow32(16) == TWO_80
  {
    assert Pow32(4) == 0x10_0000;
    assert Pow32(8) == 0x100_0000_0000;
    assert Pow32(10) == TWO_50;
    assert Pow32(12) == 0x1000_0000_0000_0000;
  }

  // -- the generator --------------------------------------------------------------------

  datatype Clock = Clock(ms: nat, rand: nat) {
    /** The number the 26 digits of an id spell. */
    function Tick(): nat { ms * TWO_80 + rand }
  }

  /** Within one millisecond the counter is bumped; a new millisecond draws a fresh one. */
  function Next(g: Clock, ms: nat, random: nat): Clock {
    if ms == g.ms then Clock(g.ms, g.rand + 1) else Clock(ms, random)
  }

  function Printed(prefix: string, g: Clock): string {
    prefix + "_" + (B32(g.ms, 10) + B32(g.rand, 16))
  }

  /** Exactly when one id sorts before another: the counter is compared by its low 80 bits. */
  lemma PrintedOrder(prefix: string, g: Clock, h: Clock)
    requires g.ms < TWO_50 && h.ms < TWO_50
    ensures LexLess(Printed(prefix, g), Printed(prefix, h))
       <==> g.ms < h.ms || (g.ms == h.ms && g.rand % TWO_80 < h.rand % TWO_80)
  {
    hide B32, LexLess;
    Widths();
    LexLessPrefix(prefix + "_", B32(g.ms, 10) + B32(g.rand, 16), B32(h.ms, 10) + B32(h.rand, 16));
    LexLessConcat(B32(g.ms, 10), B32(h.ms, 10), B32(g.rand, 16), B32(h.rand, 16));
    B32PreservesOrder(g.ms, h.ms, 10);
    B32Truncates(g.rand % TWO_80, g.rand / TWO_80, 16);
    B32Truncates(h.rand % TWO_80, h.rand / TWO_80, 16);
    B32PreservesOrder(g.rand % TWO_80, h.rand % TWO_80, 16);
  }

  /** In a new millisecond the id spells the clock and the draw, so two draws give two ids; within one it spells the
      last counter plus one, and the draw plays no part. */
  lemma IdsSpellTheDraw(prefix: string, g: Clock, h: Clock, ms: nat, random: nat, other: nat)
    requires ms != g.ms && ms != h.ms && random < TWO_80 && other < TWO_80
    ensures Printed(prefix, Next(g, ms, random)) == prefix + "_" + (B32(ms, 10) + B32(random, 16))
    ensures Printed(prefix, Next(g, g.ms, random)) == prefix + "_" + (B32(g.ms, 10) + B32(g.rand + 1, 16))
    ensures Printed(prefix, Next(g, ms, random)) == Printed(prefix, Next(h, ms, other)) <==> random == other
  {
    var x, y := Next(g, ms, random), Next(h, ms, other);
    hide B32;
    Widths();
    B32PreservesOrder(random, other, 16);
    assert Printed(prefix, x)[|prefix| + 11..] == B32(random, 16);
    assert Printed(prefix, y)[|prefix| + 11..] == B32(other, 16);
  }

  /** Exactly when the next id sorts after the last one: the clock moved on, or the counter did not wrap. */
  lemma NextSortsAfterIff(prefix: string, g: Clock, ms: nat, random: nat)
    requires g.ms < TWO_50 && ms < TWO_50
    ensures LexLess(Printed(prefix, g), Printed(prefix, Next(g, ms, random)))
       <==> ms > g.ms || (ms == g.ms && g.rand % TWO_80 != TWO_80 - 1)
  {
    PrintedOrder(prefix, g, Next(g, ms, random));
  }

  /** A clock set back one millisecond, and a counter at its last value: in both cases the next id sorts before the
      last. */
  lemma LaterIdSortsFirst()
    ensures LexLess(Printed("mg", Next(Clock(5, 0), 4, 0)), Printed("mg", Clock(5, 0)))
    ensures LexLess(Printed("mg", Next(Clock(5, TWO_80 - 1), 5, 0)), Printed("mg", Clock(5, TWO_80 - 1)))
  {
    hide Printed, LexLess;
    PrintedOrder("mg", Next(Clock(5, 0), 4, 0), Clock(5, 0));
    PrintedOrder("mg", Next(Clock(5, TWO_80 - 1), 5, 0), Clock(5, TWO_80 - 1));
  }

  /** The generator's state after each of a run of calls. */
  function RunOf(g: Clock, calls: seq<(nat, nat)>): (r: seq<Clock>)
    ensures |r| == |calls|
    decreases |calls|
  {
    if calls == [] then []
    else var h := Next(g, calls[0].0, calls[0].1); [h] + RunOf(h, calls[1..])
  }

  ghost predicate SteadyClock(g: Clock, calls: seq<(nat, nat)>) {
    && (forall i | 0 <= i < |calls| :: g.ms <= calls[i].0 < TWO_50)
    && (forall i, j | 0 <= i < j < |calls| :: calls[i].0 <= calls[j].0)
  }

  lemma {:induction false} RunAscends(g: Clock, calls: seq<(nat, nat)>, i: nat)
    requires SteadyClock(g, calls) && i < |calls| && g.rand < TWO_80
    requires forall h | h in RunOf(g, calls) :: h.rand < TWO_80
    ensures g.ms <= RunOf(g, calls)[i].ms < TWO_50
    ensures g.ms == RunOf(g, calls)[i].ms ==> g.rand < RunOf(g, calls)[i].rand
    decreases |calls|
  {
    var run, h := RunOf(g, calls), Next(g, calls[0].0, calls[0].1);
    assert run == [h] + RunOf(h, calls[1..]) && h in run;
    if i > 0 {
      assert forall x | x in RunOf(h, calls[1..]) :: x in run;
      RunAscends(h, calls[1..], i - 1);
    }
  }

  lemma {:induction false} RunPairsAscend(g: Clock, calls: seq<(nat, nat)>, i: nat, j: nat)
    requires SteadyClock(g, calls) && i < j < |calls| && g.rand < TWO_80
    requires forall h | h in RunOf(g, calls) :: h.rand < TWO_80
    ensures var run := RunOf(g, calls);
            && run[i].ms <= run[j].ms < TWO_50
            && (run[i].ms == run[j].ms ==> run[i].rand < run[j].rand)
    decreases i
  {
    var run, h := RunOf(g, calls), Next(g, calls[0].0, calls[0].1);
    assert run == [h] + RunOf(h, calls[1..]) && h in run;
    assert forall x | x in RunOf(h, calls[1..]) :: x in run;
    if i > 0 {
      RunPairsAscend(h, calls[1..], i - 1, j - 1);
    } else {
      RunAscends(h, calls[1..], j - 1);
    }
  }

  /** Over any run of calls on a steady clock whose counter never overflows, ids are issued in strictly ascending
      order. */
  lemma {:induction false} RunIdsIncrease(prefix: string, g: Clock, calls: seq<(nat, nat)>, i: nat, j: nat)
    requires SteadyClock(g, calls) && i < j < |calls| && g.rand < TWO_80
    requires forall h | h in RunOf(g, calls) :: h.rand < TWO_80
    ensures LexLess(Printed(prefix, RunOf(g, calls)[i]), Printed(prefix, RunOf(g, calls)[j]))
    ensures RunOf(g, calls)[i].Tick() < RunOf(g, calls)[j].Tick()
  {
    hide LexLess, Printed;
    var x, y := RunOf(g, calls)[i], RunOf(g, calls)[j];
    RunPairsAscend(g, calls, i, j);
    assert x in RunOf(g, calls) && y in RunOf(g, calls);
    PrintedOrder(prefix, x, y);
    TicksOrder(x, y);
  }

  /** Without overflow, the number an id spells orders ids just as their strings do. */
  lemma TicksOrder(g: Clock, h: Clock)
    requires g.rand < TWO_80 && h.rand < TWO_80
    ensures g.Tick() < h.Tick() <==> g.ms < h.ms || (g.ms == h.ms && g.rand < h.rand)
  {}

  /** The process-wide generator. The clock and the random draw are inputs. */
  class IdGenerator {
    var last: Clock

    constructor ()
      ensures last == Clock(0, 0)
    {
      last := Clock(0, 0);
    }

    method NewId(prefix: string, ms: nat, random: nat) returns (id: string)
      modifies this
      ensures last == Next(old(last), ms, random)
      ensures id == Printed(prefix, last)
      ensures id == prefix + "_" + (B32(ms, 10) + B32(if ms == old(last).ms then old(last).rand + 1 else random, 16))
    {
      if ms == last.ms {
        last := last.(rand := last.rand + 1);
      } else {
        last := Clock(ms, random);
      }
      var high := PrintB32(last.ms, 10);
      var low := PrintB32(last.rand, 16);
      id := prefix + "_" + (high + low);
    }

    /** One id, by the number it spells, under a clock that never runs back and a counter that does not overflow. */
    method Draw() returns (tick: nat)
      requires last.rand < TWO_80
      modifies this
      ensures last.rand < TWO_80 && tick == last.Tick() > old(last).Tick()
    {
      assert Next(last, last.ms + 1, 0).rand < TWO_80;
      var ms: nat, random: nat :| ms >= last.ms && Next(last, ms, random).rand < TWO_80;
      var id := NewId("mg", ms, random);
      TicksOrder(old(last), last);
      tick := last.Tick();
    }
  }
}
