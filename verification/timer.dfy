/** The two-level timer: a short count that runs down with every call and branch, and the rest of the
    granted ticks. */
module InterruptTimer {

  const TIMER_STEP := 12500
  const TEMPORARY_FUEL := 100
  const WORD := 0x1_0000_0000
  const MAX_FIXNUM := 0x1FFF_FFFF
  const FIXNUMS := 0x4000_0000       // there are so many

  datatype Exception = Timer | KeyboardInterrupt | FloatingPoint | BadArgument

  /** A millicode procedure returns, or leaves for the exception handler. */
  datatype Outcome = Returns | Raises(exception: Exception)

  /** A number of ticks left, or false if interrupts are disabled. */
  datatype Left = Off | Left(count: int)

  /** The flags that signal handlers set. */
  datatype Signals = Signals(signal: bool, sigint: bool, fpe: bool)

  /** What one check of the flags does: an interrupt signal hides a floating-point exception, and stays
      set when a keyboard interrupt is raised. */
  predicate Checked(before: Signals, o: Outcome, after: Signals) {
    match o
    case Raises(KeyboardInterrupt) => before.signal && before.sigint && after == before.(sigint := false)
    case Raises(FloatingPoint) => !before.signal && before.fpe && after == before.(fpe := false)
    case Returns => !(if before.signal then before.sigint else before.fpe) && after == before.(signal := false)
    case _ => false
  }

  /** The flags after signals have arrived. */
  function Joined(f: Signals, a: Signals): Signals {
    Signals(f.signal || a.signal, f.sigint || a.sigint, f.fpe || a.fpe)
  }

  /** The next check will raise an exception. */
  predicate PendingIn(f: Signals) {
    if f.signal then f.sigint else f.fpe
  }

  /** The short count runs down with tick number `n` of a grant of `x`. */
  predicate RunsDown(n: nat, x: nat) {
    n == x || (0 < n < x && n % TIMER_STEP == 0)
  }

  /** With these flags, tick number `n` of a grant of `x` is lost. */
  predicate Loses(f: Signals, n: nat, x: nat) {
    RunsDown(n, x) && PendingIn(f)
  }

  /** `seen` has the flags as every tick finds them, if `arrivals` arrive before the ticks: what has
      arrived stays at least until the count runs down.  `lost` says that the last tick was lost. */
  ghost predicate IsTrace(seen: seq<Signals>, arrivals: seq<Signals>, x: nat, lost: bool) {
    && |seen| <= |arrivals|
    && (forall i | 0 < i < |seen| && !RunsDown(i, x) :: seen[i] == Joined(seen[i - 1], arrivals[i]))
    && (forall i | 0 <= i < |seen| :: seen[i] == Joined(seen[i], arrivals[i]))
    && (forall i | 0 <= i < |seen| :: Loses(seen[i], i + 1, x) == (lost && i == |seen| - 1))
  }

  class VmTimer {
    // Words.
    var timer: nat
    var timer2: nat
    var enabled: bool
    // Set by signal handlers at any time.
    var signal: bool
    var sigint: bool
    var fpe: bool

    // The ticks granted when interrupts were last enabled, and those used since.
    ghost var granted: nat
    ghost var ticks: nat

    constructor ()
      ensures Sound() && !enabled && !signal && !sigint && !fpe
      ensures timer == TIMER_STEP && timer2 == 0 && granted == ticks == 0
    {
      timer, timer2, enabled := TIMER_STEP, 0, false;
      signal, sigint, fpe := false, false, false;
      granted, ticks := 0, 0;
    }

    /** While interrupts are enabled no tick is lost, and the next tick is a real one. */
    ghost predicate Sound()
      reads this
    {
      timer < WORD && timer2 <= MAX_FIXNUM
      && (enabled ==> 1 <= timer <= TIMER_STEP && ticks + timer + timer2 == granted <= MAX_FIXNUM)
    }

    /** A signal that the next check will turn into an exception. */
    predicate Pending()
      reads `signal, `sigint, `fpe
    {
      PendingIn(Flags())
    }

    function Flags(): Signals
      reads `signal, `sigint, `fpe
    {
      Signals(signal, sigint, fpe)
    }

    method CheckSignals() returns (o: Outcome)
      modifies `signal, `sigint, `fpe
      ensures Checked(old(Flags()), o, Flags())
    {
      o := Returns;
      if signal {
        if sigint {
          sigint := false;
          return Raises(KeyboardInterrupt);
        }
        signal := false;
      } else if fpe {
        fpe := false;
        o := Raises(FloatingPoint);
      }
    }

    /** Split `count` ticks over the two levels. */
    method SetupTimer(count: nat) returns (o: Outcome)
      modifies `timer, `timer2, `signal, `sigint, `fpe
      ensures timer + timer2 == count && timer == if count <= TIMER_STEP then count else TIMER_STEP
      ensures Checked(old(Flags()), o, Flags())
    {
      if count <= TIMER_STEP {
        timer, timer2 := count, 0;
      } else {
        timer, timer2 := TIMER_STEP, count - TIMER_STEP;
      }
      o := CheckSignals();
    }

    /** The short count has run down to 0.  A pending signal comes first; then interrupts that are disabled
        get some more ticks, the second level refills the first, after which signals are checked once more,
        or the timer interrupt is due. */
    method TimerException() returns (o: Outcome)
      requires timer == 0 && timer2 <= MAX_FIXNUM
      modifies `timer, `timer2, `enabled, `signal, `sigint, `fpe
      ensures old(Pending()) ==>
                && timer == 0 && timer2 == old(timer2) && enabled == old(enabled)
                && Checked(old(Flags()), o, Flags())
      ensures !old(Pending()) && !old(enabled) ==>
                && timer == TEMPORARY_FUEL && timer2 == old(timer2) && !enabled
                && o == Returns && Flags() == old(Flags()).(signal := false)
      ensures !old(Pending()) && old(enabled) && old(timer2) > 0 ==>
                && timer == (if old(timer2) <= TIMER_STEP then old(timer2) else TIMER_STEP)
                && timer + timer2 == old(timer2) && enabled
                && Checked(old(Flags()).(signal := false), o, Flags())
      ensures !old(Pending()) && old(enabled) && old(timer2) == 0 ==>
                && timer == timer2 == 0 && !enabled
                && o == Raises(Timer) && Flags() == old(Flags()).(signal := false)
    {
      o := CheckSignals();
      if o.Raises? {
        return;
      }
      if !enabled {
        timer := TEMPORARY_FUEL;
      } else if timer2 != 0 {
        o := SetupTimer(timer2);
      } else {
        enabled := false;
        o := Raises(Timer);
      }
    }

    /** A procedure call or branch.  The count stays sound unless it runs down with interrupts enabled
        and a signal pending: then the program is left with a count of 0. */
    method Tick() returns (o: Outcome)
      requires Sound()
      modifies this
      ensures ticks == old(ticks) + 1 && granted == old(granted)
      ensures Sound() <==> !(old(enabled) && old(timer) == 1 && old(Pending()))
      ensures old(enabled) && !Sound() ==>
                timer == 0 && timer2 == old(timer2) && enabled && o.Raises? && o.exception != Timer
      ensures old(enabled) && Sound() ==> (o == Raises(Timer) <==> ticks == granted) && enabled == (ticks < granted)
      ensures !old(enabled) ==> !enabled && o != Raises(Timer)
      ensures old(timer) != 1 ==> o == Returns && Flags() == old(Flags())
      ensures old(timer) != 1 ==>
                && timer == (if old(timer) == 0 then WORD - 1 else old(timer) - 1)
                && timer2 == old(timer2) && enabled == old(enabled)
      ensures old(timer) == 1 ==>
                && (timer2 == if Sound() && old(enabled) then old(timer2) - timer else old(timer2))
                && timer == if !Sound() then 0 else if !old(enabled) then
                              if old(Pending()) then 0 else TEMPORARY_FUEL
                            else if old(timer2) <= TIMER_STEP then old(timer2) else TIMER_STEP
      ensures old(timer) == 1 && old(Pending()) ==> Checked(old(Flags()), o, Flags())
      ensures old(timer) == 1 && !old(Pending()) ==>
                if old(enabled) && old(timer2) > 0 then Checked(old(Flags()).(signal := false), o, Flags())
                else o == (if old(enabled) then Raises(Timer) else Returns)
                     && Flags() == old(Flags()).(signal := false)
    {
      ticks := ticks + 1;
      timer := (timer + WORD - 1) % WORD;
      o := Returns;
      if timer == 0 {
        o := TimerException();
      }
    }

    /** Enable interrupts for `x` ticks.  Of the two checks, one after the other, the second finds a
        floating-point exception that an interrupt signal without a keyboard interrupt hides from the
        first. */
    method EnableInterrupts(x: int) returns (o: Outcome)
      requires x <= MAX_FIXNUM
      modifies this
      ensures x > 0 ==> Sound() && enabled && granted == x && ticks == 0
      ensures x > 0 ==> timer + timer2 == x && timer == if x <= TIMER_STEP then x else TIMER_STEP
      ensures x > 0 && old(signal && sigint) ==>
                o == Raises(KeyboardInterrupt) && Flags() == Signals(true, false, old(fpe))
      ensures x > 0 && !old(signal && sigint) ==>
                && o == (if old(fpe) then Raises(FloatingPoint) else Returns)
                && Flags() == Signals(false, old(sigint), false)
      ensures x <= 0 ==> o == Raises(BadArgument) && unchanged(this)
    {
      if x > 0 {
        enabled := true;
        granted, ticks := x, 0;
        o := SetupTimer(x);
        if o == Returns {
          o := CheckSignals();
        }
      } else {
        o := Raises(BadArgument);
      }
    }

    /** Disable interrupts, and look for signals.  The ticks left are returned as a fixnum, which the sum
        of the two counts may not fit; `guarded` says that the ad-hoc replacement of a number that is not
        positive was used.  From a sound state it never is, and the number can be used to enable
        interrupts again. */
    method DisableInterrupts(withGuard: bool) returns (left: Left, guarded: bool, o: Outcome)
      requires timer < WORD && timer2 < WORD
      modifies `enabled, `signal, `sigint, `fpe
      ensures !enabled && (left.Off? <==> !old(enabled))
      ensures guarded <==>
              && withGuard && old(enabled)
              && ((timer + timer2) % FIXNUMS == 0 || (timer + timer2) % FIXNUMS > MAX_FIXNUM)
      ensures old(enabled) && !guarded ==>
                -MAX_FIXNUM - 1 <= left.count <= MAX_FIXNUM && left.count % FIXNUMS == (timer + timer2) % FIXNUMS
      ensures guarded ==> left == Left(50000)
      ensures old(enabled && Sound()) ==> !guarded && left == Left(granted - ticks) && 1 <= left.count <= granted
      ensures Checked(old(Flags()), o, Flags())
    {
      guarded := false;
      if enabled {
        enabled := false;
        var result := (timer + timer2) * 4 % WORD;
        if withGuard && (result == 0 || result >= WORD / 2) {
          guarded := true;
          result := 50000 * 4;
        }
        left := Left(if result >= WORD / 2 then (result - WORD) / 4 else result / 4);
      } else {
        left := Off;
      }
      o := CheckSignals();
    }

    /** What the signal handlers do. */
    method Arrive(a: Signals)
      modifies `signal, `sigint, `fpe
      ensures Flags() == Joined(old(Flags()), a)
    {
      signal, sigint, fpe := signal || a.signal, sigint || a.sigint, fpe || a.fpe;
    }

    /** Tick with signals arriving in between, whatever exceptions they raise.  As long as none is pending
        when the short count runs down, the timer interrupt comes with exactly the last tick granted, and
        before that the ticks used and those left add up to the grant.  `lost` says that one was pending:
        then the program is left with a count of 0, and what is left of the grant in the second level. */
    method TicksUnderSignals(x: nat, arrivals: seq<Signals>)
      returns (count: nat, lost: bool, o: Outcome, ghost seen: seq<Signals>)
      requires 0 < x <= MAX_FIXNUM
      modifies this
      ensures |seen| == count && IsTrace(seen, arrivals, x, lost)
      ensures !lost ==> Sound() && count == (if |arrivals| < x then |arrivals| else x)
      ensures !lost ==> (o == Raises(Timer) <==> count == x) && enabled == (count < x)
      ensures !lost && count < x ==> count + timer + timer2 == x && 0 < timer
      ensures lost ==> enabled && timer == 0 && count + timer2 == x && o.Raises? && o.exception != Timer
    {
      hide IsTrace, PendingIn;
      count, lost, seen := 0, false, [];
      NoTrace(arrivals, x);
      ghost var refilled := 0;
      o := EnableInterrupts(x);
      while count < |arrivals| && o != Raises(Timer) && !lost
        invariant |seen| == count == ticks <= |arrivals| && count <= x == granted && IsTrace(seen, arrivals, x, lost)
        invariant refilled % TIMER_STEP == 0 && refilled <= count
        invariant !lost && count < x ==>
                    && count + timer == (if timer2 > 0 then refilled + TIMER_STEP else x)
                    && count + timer <= refilled + TIMER_STEP
        invariant 0 < count && !lost && !RunsDown(count, x) ==> Flags() == seen[count - 1]
        invariant !lost ==> Sound() && enabled == (count < x) && (o == Raises(Timer) <==> count == x)
        invariant lost ==> enabled && timer == 0 && count + timer2 == x && o.Raises? && o.exception != Timer
      {
        Arrive(arrivals[count]);
        NextMultiple(refilled, count + 1);
        TraceGrows(seen, arrivals, x, Flags());
        lost, seen := timer == 1 && Pending(), seen + [Flags()];
        if timer == 1 && timer2 > 0 {
          refilled := refilled + TIMER_STEP;
        }
        o := Tick();
        count := count + 1;
      }
    }

    static lemma NoTrace(arrivals: seq<Signals>, x: nat)
      ensures IsTrace([], arrivals, x, false)
    {
    }

    static lemma TraceGrows(seen: seq<Signals>, arrivals: seq<Signals>, x: nat, f: Signals)
      requires IsTrace(seen, arrivals, x, false) && |seen| < |arrivals| && f == Joined(f, arrivals[|seen|])
      requires 0 < |seen| && !RunsDown(|seen|, x) ==> f == Joined(seen[|seen| - 1], arrivals[|seen|])
      ensures IsTrace(seen + [f], arrivals, x, Loses(f, |seen| + 1, x))
    {
    }

    static lemma NextMultiple(m: nat, n: nat)
      requires m % TIMER_STEP == 0 && m < n <= m + TIMER_STEP
      ensures n % TIMER_STEP == 0 <==> n == m + TIMER_STEP
      ensures (m + TIMER_STEP) % TIMER_STEP == 0
    {
    }

    /** With no signal about, the timer interrupt comes after exactly the ticks granted. */
    method TicksUntilInterrupt(x: nat) returns (count: nat)
      requires 0 < x <= MAX_FIXNUM && !signal && !sigint && !fpe
      modifies this
      ensures count == x && !enabled
    {
      count := 0;
      var o := EnableInterrupts(x);
      o := Returns;
      while o != Raises(Timer)
        invariant Sound() && granted == x && ticks == count && !signal && !sigint && !fpe
        invariant o == Returns || o == Raises(Timer)
        invariant if o == Raises(Timer) then count == x && !enabled else enabled && count < x
        decreases o == Returns, x - count
      {
        o := Tick();
        count := count + 1;
      }
    }
  }

  /** A keyboard interrupt that is pending when the count runs down leaves a count of 0 behind, with
      interrupts enabled: disabling interrupts then gives 0, which enabling does not accept. */
  method LostTick() returns (lost: Outcome, left: Left, o: Outcome)
    ensures lost == Raises(KeyboardInterrupt) && left == Left(0) && o == Raises(BadArgument)
  {
    var t := new VmTimer();
    o := t.EnableInterrupts(1);
    t.signal, t.sigint := true, true;
    lost := t.Tick();
    var guarded;
    left, guarded, o := t.DisableInterrupts(false);
    o := t.EnableInterrupts(left.count);
  }
}
