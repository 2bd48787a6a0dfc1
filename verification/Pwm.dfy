/** The PWM callbacks of domo/user/user_main.c, which reload their own software timer from inside the handler. */
module Pwm {
  import opened MqttMsg
  import opened Timers

  /** One build: timer tick in microseconds and PWM_SCALL. PWM_SCALL_SLOW is not overridden in any build. */
  datatype Build = Build(us: nat, scall: nat)

  const SHUTTER := Build(100, 100)
  const DEFAULT := Build(21, 5)

  /** timerPwm1 and timerPwm2: the static `on`, the output pin, and the period handed to timer_change. */
  function React(on: bool, pin: bool, power: nat, scall: nat): (r: (bool, bool, nat)) {
    if power < 2 then (on, false, 10000)
    else if power > 98 then (on, true, 10000)
    else
      var slow := if power > 90 || power < 10 then 4 else 1;
      if on then (false, false, (100 - power) * scall * slow) else (true, true, power * scall * slow)
  }

  class PwmChannel {
    var on: bool
    var pin: bool

    /** `timerPwm1`, with the power setting that it reads; it returns the period it passes to timer_change. */
    method TimerPwm(power: nat, scall: nat) returns (period: nat)
      modifies this
      ensures (on, pin, period) == React(old(on), old(pin), power, scall)
      ensures if 2 <= power <= 98 then on == !old(on) && pin == on else on == old(on) && pin == (power > 98)
      ensures period == 10000 || period >= 8 * scall
    {
      ShortestReload(on, pin, power, scall);
      if power < 2 {
        pin := false;
        period := 10000;
      } else if power > 98 {
        pin := true;
        period := 10000;
      } else if on {
        on := false;
        pin := false;
        if power > 90 || power < 10 {
          period := (100 - power) * scall * 4;
        } else {
          period := (100 - power) * scall;
        }
      } else {
        on := true;
        pin := true;
        if power > 90 || power < 10 {
          period := power * scall * 4;
        } else {
          period := power * scall;
        }
      }
    }
  }

  /** The two phases share a cycle of 100 steps, or 400 at the ends of the range, as power and its complement. */
  lemma {:induction false} PhasesShare(pin: bool, power: nat, scall: nat)
    requires 2 <= power <= 98
    ensures var high, low := React(false, pin, power, scall), React(true, pin, power, scall);
            && high.0 && high.1 && !low.0 && !low.1
            && high.2 + low.2 == 100 * scall * (if 10 <= power <= 90 then 1 else 4)
            && high.2 * (100 - power) == low.2 * power
  {
    var slow := if 10 <= power <= 90 then 1 else 4;
    assert power * scall * slow == power * (scall * slow);
    assert (100 - power) * scall * slow == (100 - power) * (scall * slow);
    Share(power, scall * slow);
    assert 100 * scall * slow == 100 * (scall * slow);
  }

  lemma Share(power: nat, x: nat)
    requires power <= 100
    ensures power * x + (100 - power) * x == 100 * x
    ensures power * x * (100 - power) == (100 - power) * x * power
  {}

  /** No setting of the channel makes a callback reload its timer with zero ticks, on which the timer would stall. */
  ghost predicate NeverStalls(build: Build)
    requires build.us > 0
  {
    forall on, pin, power: nat :: React(on, pin, power, build.scall).2 / build.us >= 1
  }

  /** The shortest reload is eight times PWM_SCALL, at power 2 and 98. */
  lemma {:induction false} StallsUnless(build: Build)
    requires build.us > 0
    ensures NeverStalls(build) <==> build.us <= 10000 && build.us <= 8 * build.scall
  {
    if build.us <= 10000 && build.us <= 8 * build.scall {
      forall on, pin, power: nat ensures React(on, pin, power, build.scall).2 / build.us >= 1 {
        ShortestReload(on, pin, power, build.scall);
        AtLeastOneTick(React(on, pin, power, build.scall).2, build.us);
      }
    } else {
      AtLeastOneTick(React(true, true, 0, build.scall).2, build.us);
      AtLeastOneTick(React(false, false, 2, build.scall).2, build.us);
    }
  }

  lemma ShortestReload(on: bool, pin: bool, power: nat, scall: nat)
    ensures React(on, pin, power, scall).2 == 10000 || React(on, pin, power, scall).2 >= 8 * scall
  {
    if 2 <= power <= 98 {
      var k := if on then 100 - power else power;
      AtLeast(k, if power > 90 || power < 10 then 2 else 8, scall);
      assert k * scall * 4 == 4 * (k * scall);
    }
  }

  lemma AtLeast(k: nat, least: nat, x: nat)
    requires k >= least
    ensures k * x >= least * x
  {}

  lemma AtLeastOneTick(period: nat, us: nat)
    requires us > 0
    ensures period / us >= 1 <==> period >= us
  {
    if period < us { assert period / us == 0; }
  }

  /** The shutter and the default build are safe; a tick of 100 with the default PWM_SCALL would not be. */
  lemma BuildsNeverStall()
    ensures NeverStalls(SHUTTER) && NeverStalls(DEFAULT) && !NeverStalls(DEFAULT.(us := 100))
  {
    StallsUnless(SHUTTER);
    StallsUnless(DEFAULT);
    StallsUnless(DEFAULT.(us := 100));
  }

  // ---------------------------------------------------------------- the channel in the timer table

  /** A channel and its slot in the table, as the ticks go by under constant power. */
  datatype Channel = Channel(on: bool, pin: bool, cpt: int)

  function Reload(ch: Channel, power: nat, build: Build): Channel
    requires build.us > 0
  {
    var (on, pin, period) := React(ch.on, ch.pin, power, build.scall);
    Channel(on, pin, period / build.us)
  }

  function After(ch: Channel, power: nat, build: Build): Channel
    requires build.us > 0
  {
    if ch.cpt == 1 then Reload(ch, power, build) else ch.(cpt := ch.cpt - 1)
  }

  /**
   * One tick of the real table: if the slot's callback is timerPwm, which calls timer_change on itself once, and the
   * other callbacks spare it, then its count follows `After`, and the callback runs exactly when the count was one.
   */
  lemma {:induction false} TickIsAfter(tab: seq<Slot>, script: seq<seq<Cmd>>, m: nat, c: Callback,
                                       ch: Channel, power: nat, build: Build)
    requires build.us > 0 && |script| == |tab| && Owns(tab, m, c) && tab[m].cpt == ch.cpt
    requires SparedBut(script, 0, m, c)
    requires script[m] == [Cmd.Change(React(ch.on, ch.pin, power, build.scall).2, c)]
    ensures var (t, fired) := Tick(tab, build.us, script);
            && Owns(t, m, c) && t[m].cpt == After(ch, power, build).cpt
            && (m in fired <==> ch.cpt == 1)
  {
    hide Walk, React;
    var period := React(ch.on, ch.pin, power, build.scall).2;
    if ch.cpt == 1 {
      assert script[m] == [] + [Cmd.Change(period, c)] + [];
      ChangingWalk(tab, build.us, script, 0, m, c, m, c, [], period, []);
    } else {
      IdleWalk(tab, build.us, script, 0, m, c);
    }
  }

  /** The channel after `n` ticks. */
  function Later(ch: Channel, power: nat, build: Build, n: nat): Channel
    requires build.us > 0
  {
    if n == 0 then ch else After(Later(ch, power, build, n - 1), power, build)
  }

  /** The table after `n` ticks, at each of which the callbacks that fire follow its script. */
  function Ticks(tab: seq<Slot>, us: nat, scripts: seq<seq<seq<Cmd>>>, n: nat): (r: seq<Slot>)
    requires us > 0 && n <= |scripts| && forall i | 0 <= i < n :: |scripts[i]| == |tab|
    ensures |r| == |tab|
  {
    if n == 0 then tab else Tick(Ticks(tab, us, scripts, n - 1), us, scripts[n - 1]).0
  }

  /** Over any number of ticks, among any other callbacks that spare it, the channel's slot follows the channel. */
  lemma {:induction false} TicksAreLater(tab: seq<Slot>, scripts: seq<seq<seq<Cmd>>>, n: nat, m: nat, c: Callback,
                                         ch: Channel, power: nat, build: Build)
    requires build.us > 0 && Owns(tab, m, c) && tab[m].cpt == ch.cpt && n <= |scripts|
    requires forall i | 0 <= i < n ::
               && |scripts[i]| == |tab| && SparedBut(scripts[i], 0, m, c)
               && var now := Later(ch, power, build, i);
                  scripts[i][m] == [Cmd.Change(React(now.on, now.pin, power, build.scall).2, c)]
    ensures var t := Ticks(tab, build.us, scripts, n);
            Owns(t, m, c) && t[m].cpt == Later(ch, power, build, n).cpt
    decreases n
  {
    if n > 0 {
      hide After, React, Tick;
      TicksAreLater(tab, scripts, n - 1, m, c, ch, power, build);
      var now := Later(ch, power, build, n - 1);
      TickIsAfter(Ticks(tab, build.us, scripts, n - 1), scripts[n - 1], m, c, now, power, build);
    }
  }

  // ---------------------------------------------------------------- duty cycle

  /** Of the next `n` ticks, how many leave the pin high. */
  function HighTicks(ch: Channel, power: nat, build: Build, n: nat): nat
    requires build.us > 0
  {
    if n == 0 then 0 else HighTicks(ch, power, build, n - 1) + if Later(ch, power, build, n).pin then 1 else 0
  }

  /** Length of a cycle in ticks of the shutter build, and of its high part. */
  function Cycle(power: nat): nat { if power > 90 || power < 10 then 400 else 100 }

  function High(power: nat): nat { if power > 90 || power < 10 then 4 * power else power }

  /** A phase of the cycle that a callback has begun: the pin follows `on`, and the count is within the phase. */
  predicate Cycling(ch: Channel, power: nat) {
    ch.pin == ch.on && 1 <= ch.cpt <= if ch.on then High(power) else Cycle(power) - High(power)
  }

  lemma Reloads(ch: Channel, power: nat)
    requires 2 <= power <= 98
    ensures Reload(ch, power, SHUTTER)
         == Channel(!ch.on, !ch.on, if ch.on then Cycle(power) - High(power) else High(power))
  {}

  lemma {:induction false} WithinPhase(ch: Channel, power: nat, n: nat)
    requires n < ch.cpt
    ensures Later(ch, power, SHUTTER, n) == ch.(cpt := ch.cpt - n)
    ensures HighTicks(ch, power, SHUTTER, n) == if ch.pin then n else 0
    decreases n
  {
    if n > 0 { WithinPhase(ch, power, n - 1); }
  }

  lemma {:induction false} Compose(ch: Channel, power: nat, build: Build, n: nat, k: nat)
    requires build.us > 0
    ensures var mid := Later(ch, power, build, n);
            && Later(ch, power, build, n + k) == Later(mid, power, build, k)
            && HighTicks(ch, power, build, n + k) == HighTicks(ch, power, build, n) + HighTicks(mid, power, build, k)
    decreases k
  {
    hide After;
    if k > 0 { Compose(ch, power, build, n, k - 1); }
  }

  /** The tick that ends a phase begins the other one. */
  lemma {:induction false} ToNextPhase(ch: Channel, power: nat)
    requires 2 <= power <= 98 && ch.cpt >= 1
    ensures var next := Channel(!ch.on, !ch.on, if ch.on then Cycle(power) - High(power) else High(power));
            && Later(ch, power, SHUTTER, ch.cpt) == next
            && HighTicks(ch, power, SHUTTER, ch.cpt) == (if ch.pin then ch.cpt - 1 else 0) + (if next.pin then 1 else 0)
  {
    WithinPhase(ch, power, ch.cpt - 1);
    Reloads(ch.(cpt := 1), power);
  }

  /**
   * In the shutter build, under constant power between 2 and 98, once a callback has run the pin is high after
   * exactly `power` of every 100 ticks in a row, or 4 * `power` of every 400 below 10 and above 90; and then the
   * channel is where it was.
   */
  lemma {:induction false} DutyCycle(ch: Channel, power: nat)
    requires 2 <= power <= 98 && Cycling(ch, power)
    ensures HighTicks(ch, power, SHUTTER, Cycle(power)) == High(power)
    ensures Later(ch, power, SHUTTER, Cycle(power)) == ch
  {
    var high, low := High(power), Cycle(power) - High(power);
    ToNextPhase(ch, power);
    var second := Later(ch, power, SHUTTER, ch.cpt);
    ToNextPhase(second, power);
    var third := Later(second, power, SHUTTER, second.cpt);
    var rest := Cycle(power) - ch.cpt - second.cpt;
    WithinPhase(third, power, rest);
    hide Later, HighTicks;
    Compose(ch, power, SHUTTER, ch.cpt, second.cpt);
    Compose(ch, power, SHUTTER, ch.cpt + second.cpt, rest);
  }

  /** A channel whose callback has just run, for the first time or under new power, is in a cycle. */
  lemma StartsCycling(ch: Channel, power: nat)
    requires 2 <= power <= 98
    ensures Cycling(Reload(ch, power, SHUTTER), power)
  {
    Reloads(ch, power);
  }

  /** The cycle is never left. */
  lemma {:induction false} KeepsCycling(ch: Channel, power: nat, n: nat)
    requires 2 <= power <= 98 && Cycling(ch, power)
    ensures Cycling(Later(ch, power, SHUTTER, n), power)
    decreases n
  {
    if n > 0 {
      KeepsCycling(ch, power, n - 1);
      Reloads(Later(ch, power, SHUTTER, n - 1), power);
    }
  }
}
