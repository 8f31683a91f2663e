/** The media clock's actuator: a 22-bit word for the audio PLL, whose fraction is
    carried from tick to tick (a first-order sigma-delta) so that the mean is exact. */
module MclkHw {
  import opened Arith

  const ONE := 65536               // one word, in target units (16 fractional bits)
  const SDM_BASE_OFFSET := 0x40000 // the constant term of the PLL, in words
  const SDM_MAX := 0x3FFFFF
  const TOTAL_PPB_MAX := 202000
  const BILLION := 1000000000

  /** ppb of the whole PLL ratio, in target units times 10^9. */
  function Trim(base: int, ppb: int): int { ppb * (SDM_BASE_OFFSET + base) * ONE }

  /** mclk_hw_set_ppb: the word wanted, with 16 fractional bits. */
  function Target(base: int, ppb: int): int
  {
    base * ONE + TruncDiv(Trim(base, Clamp(ppb, -TOTAL_PPB_MAX, TOTAL_PPB_MAX)), BILLION)
  }

  /** The target is a word the registers can hold, with no fraction to carry past
      the largest one. */
  predicate InRange(target: int) { 0 <= target <= SDM_MAX * ONE }

  /** The nominal word leaves room for the largest trim on both sides. */
  predicate Room(base: int) { 53 <= base <= 4193402 }

  lemma TrimMonotone(base: int, a: int, b: int)
    requires 0 <= base && a <= b
    ensures Trim(base, a) <= Trim(base, b)
  {
    var span := (SDM_BASE_OFFSET + base) * ONE;
    assert Trim(base, a) == a * span;
    assert Trim(base, b) == b * span;
    MulMonotone(a, b, span);
  }

  lemma TruncMonotone(a: int, b: int)
    requires a <= b
    ensures TruncDiv(a, BILLION) <= TruncDiv(b, BILLION)
  {}

  /** The room needed is exactly what keeps every command away from the ends of the
      word. */
  lemma RoomIsEnough(base: int)
    requires 0 <= base <= SDM_MAX
    ensures Room(base) <==> (forall ppb: int :: InRange(Target(base, ppb)))
  {
    if Room(base) {
      forall ppb: int ensures InRange(Target(base, ppb)) {
        var p := Clamp(ppb, -TOTAL_PPB_MAX, TOTAL_PPB_MAX);
        TrimMonotone(base, -TOTAL_PPB_MAX, p);
        TrimMonotone(base, p, TOTAL_PPB_MAX);
        TruncMonotone(Trim(base, -TOTAL_PPB_MAX), Trim(base, p));
        TruncMonotone(Trim(base, p), Trim(base, TOTAL_PPB_MAX));
      }
    } else if base < 53 {
      assert !InRange(Target(base, -TOTAL_PPB_MAX));
    } else {
      assert !InRange(Target(base, TOTAL_PPB_MAX));
    }
  }

  /** One tick of dither_cb: the whole part, one more when the fractions add up to a
      word, kept within the register. */
  function Render(acc: int, target: int): (r: (int, int))
  {
    var sum := acc + target % ONE;
    var whole := target / ONE + if sum >= ONE then 1 else 0;
    (Clamp(whole, 0, SDM_MAX), if sum >= ONE then sum - ONE else sum)
  }

  /** The word and the remainder are those of dividing what has been asked for and
      not yet been given; nothing is lost exactly when the word fits. */
  lemma RenderIsExact(acc: int, target: int)
    requires 0 <= acc < ONE
    ensures var (word, rest) := Render(acc, target);
      0 <= rest < ONE && 0 <= word <= SDM_MAX
      && (ONE * word + rest == acc + target <==> 0 <= acc + target < (SDM_MAX + 1) * ONE)
  {
    var (word, rest) := Render(acc, target);
    assert target == ONE * (target / ONE) + target % ONE;
  }

  /** What the actuator has been told and has done. */
  datatype Actuator = Actuator(base: int, target: int, acc: int, applied: int, words: seq<int>, targets: seq<int>)

  datatype Event = SetPpb(ppb: int) | Tick

  function Start(base: int): Actuator { Actuator(base, base * ONE, 0, base, [], []) }

  function Step(a: Actuator, e: Event): Actuator
  {
    match e
    case SetPpb(ppb) => a.(target := Target(a.base, ppb))
    case Tick =>
      var (word, rest) := Render(a.acc, a.target);
      a.(acc := rest, applied := word, words := a.words + [word], targets := a.targets + [a.target])
  }

  function Run(a: Actuator, es: seq<Event>): Actuator
  {
    if es == [] then a else Step(Run(a, es[..|es| - 1]), es[|es| - 1])
  }

  function Sum(s: seq<int>): int { if s == [] then 0 else Sum(s[..|s| - 1]) + s[|s| - 1] }

  lemma SumAppend(s: seq<int>, x: int)
    ensures Sum(s + [x]) == Sum(s) + x
  {
    assert (s + [x])[..|s|] == s;
  }

  /** What holds whatever the nominal word: a fraction is carried, and every word fits. */
  ghost predicate Bounded(a: Actuator)
  {
    && 0 <= a.acc < ONE && 0 <= a.applied <= SDM_MAX && |a.words| == |a.targets|
    && (forall i :: 0 <= i < |a.words| ==> 0 <= a.words[i] <= SDM_MAX)
  }

  ghost predicate Inv(a: Actuator) { Bounded(a) && InRange(a.target) }

  /** What is owed: the fraction carried is the whole difference between what was
      asked for and what was written. */
  function Owed(a: Actuator): int { ONE * Sum(a.words) + a.acc - Sum(a.targets) }

  /** A tick writes one word for what is asked for, and loses nothing exactly when what
      is due fits the register. */
  lemma TickOwes(a: Actuator)
    requires Bounded(a)
    ensures var b := Step(a, Tick);
      && Bounded(b) && b.base == a.base && b.target == a.target
      && Sum(b.words) == Sum(a.words) + b.applied && Sum(b.targets) == Sum(a.targets) + a.target
      && (Owed(b) == Owed(a) <==> 0 <= a.acc + a.target < (SDM_MAX + 1) * ONE)
  {
    hide Sum;
    RenderIsExact(a.acc, a.target);
    SumAppend(a.words, Render(a.acc, a.target).0);
    SumAppend(a.targets, a.target);
  }

  lemma {:induction false} RunBounded(a: Actuator, es: seq<Event>)
    requires Bounded(a)
    ensures Bounded(Run(a, es)) && Run(a, es).base == a.base
  {
    if es != [] {
      RunBounded(a, es[..|es| - 1]);
      if es[|es| - 1] == Tick { TickOwes(Run(a, es[..|es| - 1])); }
    }
  }

  lemma StepKeeps(a: Actuator, e: Event)
    requires Inv(a) && Room(a.base)
    ensures Inv(Step(a, e)) && Step(a, e).base == a.base && Owed(Step(a, e)) == Owed(a)
  {
    hide Sum, Target;
    RoomIsEnough(a.base);
    if e == Tick { TickOwes(a); }
  }

  /** Conservation over every interleaving of rate commands and ticks. */
  lemma {:induction false} RunConserves(a: Actuator, es: seq<Event>)
    requires Inv(a) && Room(a.base)
    ensures Inv(Run(a, es)) && Run(a, es).base == a.base && Owed(Run(a, es)) == Owed(a)
  {
    hide Sum, Target, Inv, Owed;
    if es != [] {
      RunConserves(a, es[..|es| - 1]);
      StepKeeps(Run(a, es[..|es| - 1]), es[|es| - 1]);
    }
  }

  /** From any moment to any later one, the words written fall short of or exceed
      what was asked for by less than one least significant bit in all. */
  lemma ErrorBelowOneBit(base: int, first: seq<Event>, rest: seq<Event>)
    requires Room(base)
    ensures var a := Run(Start(base), first); var b := Run(a, rest);
      Abs(ONE * (Sum(b.words) - Sum(a.words)) - (Sum(b.targets) - Sum(a.targets))) < ONE
  {
    hide Run, Sum, Target, Inv, Step;
    StartIsFine(base);
    RunConserves(Start(base), first);
    RunConserves(Run(Start(base), first), rest);
    CarriesAFraction(Run(Start(base), first));
    CarriesAFraction(Run(Run(Start(base), first), rest));
  }

  lemma CarriesAFraction(a: Actuator)
    requires Inv(a)
    ensures 0 <= a.acc < ONE
  {}

  lemma StartIsFine(base: int)
    requires 0 <= base <= SDM_MAX
    ensures Inv(Start(base)) && Owed(Start(base)) == 0
  {}

  function Ticks(n: nat): (es: seq<Event>)
    ensures |es| == n
  {
    if n == 0 then [] else Ticks(n - 1) + [Tick]
  }

  lemma RunTick(a: Actuator, n: nat)
    ensures Run(a, Ticks(n + 1)) == Step(Run(a, Ticks(n)), Tick)
  {
    assert Ticks(n + 1)[..n] == Ticks(n);
  }

  /** n ticks under one command ask for n times its target, and write n words of the
      register's range. */
  lemma {:induction false} TicksHold(a: Actuator, n: nat)
    requires Bounded(a)
    ensures var b := Run(a, Ticks(n));
      && Bounded(b) && b.target == a.target && b.base == a.base
      && Sum(b.targets) == Sum(a.targets) + n * a.target
      && 0 <= Sum(b.words) - Sum(a.words) <= n * SDM_MAX
  {
    hide Run, Ticks, Sum, Step;
    if n > 0 {
      TicksHold(a, n - 1);
      RunTick(a, n - 1);
      TickOwes(Run(a, Ticks(n - 1)));
      Times(n - 1, SDM_MAX);
      Distribute(n - 1, 1, a.target);
    } else {
      RunNothing(a);
    }
  }

  lemma RunNothing(a: Actuator)
    ensures Run(a, Ticks(0)) == a
  {}

  lemma {:induction false} RunOnwards(a: Actuator, first: seq<Event>, rest: seq<Event>)
    ensures Run(a, first + rest) == Run(Run(a, first), rest)
  {
    if rest == [] {
      assert first + rest == first;
    } else {
      RunOnwards(a, first, rest[..|rest| - 1]);
      assert (first + rest)[..|first + rest| - 1] == first + rest[..|rest| - 1];
    }
  }

  /** A target beyond the register is not made up for in one word's worth of ticks. */
  lemma OutOfRangeLoses(a: Actuator)
    requires Bounded(a) && !InRange(a.target)
    ensures Owed(Run(a, Ticks(ONE))) != Owed(a)
  {
    hide Run, Ticks, Sum;
    TicksHold(a, ONE);
  }

  lemma {:induction false} InRangeKeeps(a: Actuator, n: nat)
    requires Inv(a)
    ensures Inv(Run(a, Ticks(n))) && Owed(Run(a, Ticks(n))) == Owed(a) && Run(a, Ticks(n)).target == a.target
  {
    hide Run, Ticks, Sum, Step, Owed;
    if n > 0 {
      InRangeKeeps(a, n - 1);
      RunTick(a, n - 1);
      TickOwes(Run(a, Ticks(n - 1)));
    } else {
      RunNothing(a);
    }
  }

  /** One command, from any state: nothing is ever lost under it if and only if its
      target is within the register. */
  lemma CommandExactly(a: Actuator, ppb: int)
    requires Bounded(a)
    ensures InRange(Target(a.base, ppb)) <==> (forall n: nat :: Owed(Run(Step(a, SetPpb(ppb)), Ticks(n))) == Owed(a))
  {
    hide Run, Ticks, Sum, Target;
    var s := Step(a, SetPpb(ppb));
    if InRange(Target(a.base, ppb)) {
      forall n: nat ensures Owed(Run(s, Ticks(n))) == Owed(a) {
        InRangeKeeps(s, n);
      }
    } else {
      OutOfRangeLoses(s);
      assert Owed(s) == Owed(a);
    }
  }

  /** What the dither is for, and exactly when it holds: over every run all that was
      asked for is written or carried, if and only if the nominal word leaves room. */
  lemma ConservedExactly(base: int)
    requires 0 <= base <= SDM_MAX
    ensures Room(base) <==> (forall es: seq<Event> :: Owed(Run(Start(base), es)) == 0)
  {
    hide Run, Ticks, Sum, Target, Inv, InRange;
    StartIsFine(base);
    if Room(base) {
      forall es: seq<Event> ensures Owed(Run(Start(base), es)) == 0 {
        RunConserves(Start(base), es);
      }
    } else {
      RoomIsEnough(base);
      var ppb: int :| !InRange(Target(base, ppb));
      Loses(base, ppb);
    }
  }

  /** One command out of range, and one word's worth of ticks. */
  lemma Loses(base: int, ppb: int)
    requires 0 <= base <= SDM_MAX && !InRange(Target(base, ppb))
    ensures Owed(Run(Start(base), [SetPpb(ppb)] + Ticks(ONE))) != 0
  {
    hide Ticks, Sum, Target, InRange;
    StartIsFine(base);
    var s := Step(Start(base), SetPpb(ppb));
    assert Run(Start(base), [SetPpb(ppb)]) == s;
    RunOnwards(Start(base), [SetPpb(ppb)], Ticks(ONE));
    OutOfRangeLoses(s);
    assert Owed(s) == Owed(Start(base));
  }

  /** The target in numbers: within 202 ppm, 65536 words of base and of ppb billionths of
      the PLL's whole ratio, 262144 + base, to the nearest fraction toward base; beyond that,
      the ends. */
  lemma TargetInNumbers(base: int, ppb: int)
    ensures -202000 <= ppb <= 202000 ==>
      -1000000000 < 1000000000 * (Target(base, ppb) - 65536 * base) - ppb * (262144 + base) * 65536 < 1000000000
    ensures ppb > 202000 ==> Target(base, ppb) == Target(base, 202000)
    ensures ppb < -202000 ==> Target(base, ppb) == Target(base, -202000)
  {}

  /** At a constant command the mean of n words makes the PLL's ratio, 262144 + word, what it
      is nominally times 1 + ppb billionths, to within one n-th of a word and the 2^-16 the
      target is carried with; for every command whose target is within the register. */
  lemma RateAccuracy(a: Actuator, ppb: int, n: nat)
    requires Bounded(a) && InRange(Target(a.base, ppb)) && -202000 <= ppb <= 202000
    ensures var written := Sum(Run(Step(a, SetPpb(ppb)), Ticks(n)).words) - Sum(a.words);
      65536 * Abs(1000000000 * (n * 262144 + written) - n * ((262144 + a.base) * (1000000000 + ppb)))
        <= 1000000000 * (65536 + n)
  {
    hide Run, Ticks, Sum;
    var s := Step(a, SetPpb(ppb));
    var b := Run(s, Ticks(n));
    InRangeKeeps(s, n);
    TicksHold(s, n);
    var wanted := BILLION * ONE * a.base + Trim(a.base, ppb);
    var off := BILLION * s.target - wanted;
    assert Abs(off) < BILLION;
    Scale(n, s.target, wanted, off);
    var written := Sum(b.words) - Sum(a.words);
    assert ONE * written == n * s.target + a.acc - b.acc;
    Ratio(n, a.base, ppb);
    hide Target, Trim;
  }

  lemma Ratio(n: nat, base: int, ppb: int)
    ensures 65536 * (n * ((262144 + base) * (1000000000 + ppb)))
      == n * (BILLION * ONE * base + Trim(base, ppb)) + 65536 * (1000000000 * (n * 262144))
  {
    var span := 262144 + base;
    assert span * (1000000000 + ppb) == 1000000000 * span + ppb * span;
    assert Trim(base, ppb) == (ppb * span) * 65536;
    Distribute(1000000000 * span, ppb * span, n);
    var w := BILLION * ONE * base + Trim(base, ppb);
    assert 65536 * (span * (1000000000 + ppb)) == w + 65536 * (1000000000 * 262144);
    assert n * (65536 * (span * (1000000000 + ppb))) == n * w + n * (65536 * (1000000000 * 262144));
  }

  lemma Scale(n: nat, target: int, wanted: int, off: int)
    requires BILLION * target == wanted + off && Abs(off) < BILLION
    ensures Abs(BILLION * (n * target) - n * wanted) <= BILLION * n
  {
    assert BILLION * (n * target) == n * (BILLION * target) == n * wanted + n * off;
    MulMonotone(off, BILLION, n);
    MulMonotone(-BILLION, off, n);
  }

  /** A word as the 22 bits the registers hold. */
  function Word(sdm: int): bv22
    requires 0 <= sdm <= SDM_MAX
  {
    sdm as bv22
  }

  function High(w: bv22): bv22 { (w >> 16) & 0x3F }

  function Middle(w: bv22): bv22 { (w >> 8) & 0xFF }

  function Low(w: bv22): bv22 { w & 0xFF }

  /** The word three register fields make. */
  function Joined(s2: bv22, s1: bv22, s0: bv22): bv22 { (s2 << 16) | (s1 << 8) | s0 }

  /** Two words differ in some bit under a mask. */
  predicate Differ(a: bv22, b: bv22, mask: bv22) { (a ^ b) & mask != 0 }

  lemma JoinedFields(w: bv22)
    ensures Joined(High(w), Middle(w), Low(w)) == w
  {}

  lemma HighDiffers(a: bv22, b: bv22)
    ensures Differ(a, b, 0x3F0000) <==> High(a) != High(b)
  {}

  lemma MiddleDiffers(a: bv22, b: bv22)
    ensures Differ(a, b, 0x00FF00) <==> Middle(a) != Middle(b)
  {}

  lemma LowDiffers(a: bv22, b: bv22)
    ensures Differ(a, b, 0x0000FF) <==> Low(a) != Low(b)
  {}

  lemma RunStep(base: int, es: seq<Event>, e: Event)
    ensures Run(Start(base), es + [e]) == Step(Run(Start(base), es), e)
  {
    assert (es + [e])[..|es|] == es;
  }

  /** The word as the PLL sees it: three register fields. */
  class MclkHw {
    const base: int
    var targetQ16: int
    var sdmApplied: int
    var ditherAcc: int
    var sdmHw: bv22
    var dsdm2: bv22
    var dsdm1: bv22
    var dsdm0: bv22

    ghost var words: seq<int>
    ghost var targets: seq<int>
    ghost var events: seq<Event>

    ghost function View(): Actuator
      reads `targetQ16, `sdmApplied, `ditherAcc, `words, `targets
    {
      Actuator(base, targetQ16, ditherAcc, sdmApplied, words, targets)
    }

    /** The word the three fields make, as the PLL reads them. */
    function Held(): bv22
      reads `dsdm2, `dsdm1, `dsdm0
    {
      Joined(dsdm2, dsdm1, dsdm0)
    }

    ghost predicate Fields()
      reads `dsdm2, `dsdm1, `dsdm0, `sdmHw
    {
      dsdm2 == High(sdmHw) && dsdm1 == Middle(sdmHw) && dsdm0 == Low(sdmHw)
    }

    /** The state is where its events have led. */
    ghost predicate Running()
      reads `targetQ16, `sdmApplied, `ditherAcc, `words, `targets, `events
    {
      View() == Run(Start(base), events) && Bounded(View())
    }

    /** The registers hold the last word applied. */
    ghost predicate Valid()
      reads this
    {
      && 0 < base <= SDM_MAX && Running()
      && Fields() && Held() == sdmHw == Word(sdmApplied)
    }

    /** mclk_hw_init: without coefficients to read back there is no actuator. */
    static method Init(s2: bv22, s1: bv22, s0: bv22) returns (m: MclkHw?)
      ensures m == null <==> Joined(s2, s1, s0) == 0
      ensures m != null ==> fresh(m) && m.Valid() && m.View() == Start(Joined(s2, s1, s0) as int)
    {
      var sdmBase := Joined(s2, s1, s0) as int;
      if sdmBase == 0 { return null; }
      m := new MclkHw(sdmBase);
    }

    /** The rest of it: the word read back is the one the I2S driver programmed. */
    constructor (sdmBase: int)
      requires 0 < sdmBase <= SDM_MAX
      ensures Valid() && View() == Start(sdmBase)
    {
      hide Word, Joined, High, Middle, Low;
      JoinedFields(Word(sdmBase));
      base := sdmBase;
      sdmHw := Word(sdmBase);
      dsdm2, dsdm1, dsdm0 := High(Word(sdmBase)), Middle(Word(sdmBase)), Low(Word(sdmBase));
      targetQ16 := sdmBase * ONE;
      sdmApplied := sdmBase;
      ditherAcc := 0;
      words, targets, events := [], [], [];
    }

    /** apll_write_sdm: only the fields that differ are written. */
    method ApllWriteSdm(sdm: bv22)
      requires Fields()
      modifies `dsdm2, `dsdm1, `dsdm0, `sdmHw
      ensures Fields() && Held() == sdmHw == sdm
    {
      hide Joined, High, Middle, Low, Differ;
      HighDiffers(sdm, sdmHw);
      MiddleDiffers(sdm, sdmHw);
      LowDiffers(sdm, sdmHw);
      JoinedFields(sdm);
      if Differ(sdm, sdmHw, 0x3F0000) { dsdm2 := High(sdm); }
      if Differ(sdm, sdmHw, 0x00FF00) { dsdm1 := Middle(sdm); }
      if Differ(sdm, sdmHw, 0x0000FF) { dsdm0 := Low(sdm); }
      sdmHw := sdm;
    }

    /** dither_cb. */
    method DitherCb()
      requires Valid()
      modifies this
      ensures Valid() && View() == Step(old(View()), Tick) && events == old(events) + [Tick]
    {
      hide Fields, Held, Word, Run, Sum;
      TickOwes(View());
      RunStep(base, events, Tick);
      ghost var after := Step(View(), Tick);
      var whole := targetQ16 / ONE;
      var frac := targetQ16 % ONE;
      ditherAcc := ditherAcc + frac;
      if ditherAcc >= ONE {
        ditherAcc := ditherAcc - ONE;
        whole := whole + 1;
      }
      var sdm := if whole < 0 then 0 else if whole > SDM_MAX then SDM_MAX else whole;
      if sdm != sdmApplied {
        sdmApplied := sdm;
        ApllWriteSdm(Word(sdm));
      }
      words, targets := words + [sdm], targets + [targetQ16];
      events := events + [Tick];
      assert View() == after;
    }

    /** mclk_hw_set_ppb. */
    method SetPpb(ppb: int)
      requires Valid()
      modifies `targetQ16, `events
      ensures Valid() && View() == Step(old(View()), Event.SetPpb(ppb)) && events == old(events) + [Event.SetPpb(ppb)]
    {
      hide Fields, Held, Word, Run, Sum;
      RunStep(base, events, Event.SetPpb(ppb));
      var p := ppb;
      if p > TOTAL_PPB_MAX { p := TOTAL_PPB_MAX; }
      if p < -TOTAL_PPB_MAX { p := -TOTAL_PPB_MAX; }
      var span := SDM_BASE_OFFSET + base;
      var delta := TruncDiv(p * span * ONE, BILLION);
      targetQ16 := base * ONE + delta;
      events := events + [Event.SetPpb(ppb)];
    }

    /** Of the words this actuator has written, ever: they are what it was asked for
        but for less than one bit, if the nominal word leaves room. */
    lemma WrittenIsAsked()
      requires Valid() && Room(base)
      ensures 0 <= Sum(targets) - ONE * Sum(words) < ONE
    {
      StartIsFine(base);
      RunConserves(Start(base), events);
    }
  }
}
