/** The roller shutter of domo/user/user_main.c: power, level and set point under commands, edges and timeouts. */
module Shutter {

  const PUISSANCE_MAX := 100000
  const P_MIN_STORE_UP := 60
  const P_MIN_STORE_DOWN := 17
  const U32 := 0x1_0000_0000

  function Unsigned(x: int): nat { x % U32 }

  function Signed(x: nat): int requires x < U32 { if x < 0x8000_0000 then x else x - U32 }

  /** The globals puissance_pwm (`down` is [0], `up` is [1]), puissance_triac, niveau and consinge. */
  datatype State = State(down: nat, up: nat, triac: int, level: int, target: int)

  const INITIAL := State(0, 0, 0, 0, 0)

  datatype Event =
    | Command(value: nat)                   // an 'S' message with this byte
    | Edge(counted: bool, increases: bool)  // storeIRQ: whether the pin still reads low, and the direction sensor
    | Timeout

  // ---------------------------------------------------------------- the handlers as functions

  /** The STORE part of mqttDataCb. `scale` is echelle, an unsigned int. */
  function Commanded(s: State, value: nat, scale: nat): State {
    var val := if value > 100 then 100 else value;
    var target := Signed(Unsigned(val * scale) / 100);
    if target > s.level then State(0, 100, PUISSANCE_MAX, s.level, target)
    else if target < s.level then State(100, 0, PUISSANCE_MAX, s.level, target)
    else State(0, 0, 0, s.level, target)
  }

  /** The power half of storeIRQ. Both sides of its slow-down comparisons are converted to unsigned int. */
  function Slowed(s: State, scale: nat): State {
    var delta := s.target - s.level;
    var near := Unsigned(3 * scale) / 100;
    var s1 :=
      if s.down == 0 then s
      else if delta >= 0 then s.(down := 0, triac := 0)
      else s.(down := if Unsigned(delta) < Unsigned(-near) then 100 else P_MIN_STORE_DOWN);
    if s1.up == 0 then s1
    else if delta <= 0 then s1.(up := 0, triac := 0)
    else s1.(up := if Unsigned(delta) > near then 100 else P_MIN_STORE_UP)
  }

  /** storeIRQ. */
  function Edged(s: State, counted: bool, increases: bool, scale: nat): State {
    var s1 := Slowed(s, scale);
    if !counted then s1 else s1.(level := if increases then s1.level + 1 else s1.level - 1)
  }

  /** timeout_store. */
  function TimedOut(s: State, scale: nat): State {
    if s.down != 0 || s.up != 0
    then
      var level := if s.level < s.target then s.target + scale / 500 else s.target - scale / 500;
      State(0, 0, 0, Signed(Unsigned(level)), s.target)
    else s.(triac := 0)
  }

  function Step(s: State, e: Event, scale: nat): State {
    match e
    case Command(value) => Commanded(s, value, scale)
    case Edge(counted, increases) => Edged(s, counted, increases, scale)
    case Timeout => TimedOut(s, scale)
  }

  function Run(s: State, es: seq<Event>, scale: nat): State {
    if es == [] then s else Step(Run(s, es[..|es| - 1], scale), es[|es| - 1], scale)
  }

  // ---------------------------------------------------------------- the handlers

  class Store {
    var puissancePwm0: nat
    var puissancePwm1: nat
    var puissanceTriac: int
    var niveau: int
    var consinge: int
    const echelle: nat

    ghost function Abs(): State reads this { State(puissancePwm0, puissancePwm1, puissanceTriac, niveau, consinge) }

    constructor (echelle: nat)
      ensures Abs() == INITIAL && this.echelle == echelle
    {
      this.echelle := echelle;
      puissancePwm0, puissancePwm1, puissanceTriac, niveau, consinge := 0, 0, 0, 0, 0;
    }

    /** The STORE part of mqttDataCb, on an 'S' message. */
    method MqttDataCb(data1: nat)
      requires data1 < 0x100
      modifies this
      ensures Abs() == Commanded(old(Abs()), data1, echelle)
      ensures Safe(Abs()) && (Moving(Abs()) <==> niveau != consinge) && niveau == old(niveau)
      ensures Selects(consinge, data1, echelle)
    {
      CommandSelects(Abs(), data1, echelle);
      var val100 := data1;
      if val100 > 100 { val100 := 100; }
      consinge := Signed(Unsigned(val100 * echelle) / 100);
      var delta := consinge - niveau;
      if delta > 0 {
        puissancePwm0 := 0;
        puissancePwm1 := 100;
        puissanceTriac := PUISSANCE_MAX;
      } else if delta < 0 {
        puissancePwm0 := 100;
        puissancePwm1 := 0;
        puissanceTriac := PUISSANCE_MAX;
      } else {
        puissancePwm0 := 0;
        puissancePwm1 := 0;
        puissanceTriac := 0;
      }
    }

    method StoreIRQ(pinLow: bool, increases: bool)
      modifies this
      ensures Abs() == Edged(old(Abs()), pinLow, increases, echelle)
      ensures Safe(old(Abs())) ==>
                Safe(Abs()) && (Moving(Abs()) <==> Moving(old(Abs())) && old(niveau) != consinge)
    {
      hide Unsigned, Signed;
      var delta := consinge - niveau;
      var near := Unsigned(3 * echelle) / 100;
      if puissancePwm0 != 0 {
        if delta >= 0 {
          puissancePwm0 := 0;
          puissanceTriac := 0;
        } else {
          if Unsigned(delta) < Unsigned(-near) { puissancePwm0 := 100; } else { puissancePwm0 := P_MIN_STORE_DOWN; }
        }
      }
      if puissancePwm1 != 0 {
        if delta <= 0 {
          puissancePwm1 := 0;
          puissanceTriac := 0;
        } else {
          if Unsigned(delta) > near { puissancePwm1 := 100; } else { puissancePwm1 := P_MIN_STORE_UP; }
        }
      }
      if pinLow {
        if increases { niveau := niveau + 1; } else { niveau := niveau - 1; }
      }
    }

    method TimeoutStore()
      modifies this
      ensures Abs() == TimedOut(old(Abs()), echelle)
      ensures !Moving(Abs()) && Safe(Abs())
    {
      if puissancePwm0 != 0 || puissancePwm1 != 0 {
        puissancePwm0 := 0;
        puissancePwm1 := 0;
        if niveau < consinge {
          niveau := Signed(Unsigned(consinge + echelle / 500));
        } else {
          niveau := Signed(Unsigned(consinge - echelle / 500));
        }
      }
      puissanceTriac := 0;
    }
  }

  // ---------------------------------------------------------------- safety over whole runs

  /** At most one direction has power, the triac is on exactly when one has, and that one leads to the set point. */
  predicate Safe(s: State) {
    && (s.down == 0 || s.up == 0)
    && s.triac == (if s.down != 0 || s.up != 0 then PUISSANCE_MAX else 0)
    && (s.down != 0 ==> s.level >= s.target)
    && (s.up != 0 ==> s.level <= s.target)
  }

  lemma StepIsSafe(s: State, e: Event, scale: nat)
    requires Safe(s)
    ensures Safe(Step(s, e, scale))
  {
    hide Unsigned, Signed;
  }

  /** Over every run of commands, edges and timeouts from the initial state the motor is safe. */
  lemma {:induction false} AlwaysSafe(es: seq<Event>, scale: nat)
    ensures Safe(Run(INITIAL, es, scale))
    decreases |es|
  {
    if es != [] {
      hide Step;
      AlwaysSafe(es[..|es| - 1], scale);
      StepIsSafe(Run(INITIAL, es[..|es| - 1], scale), es[|es| - 1], scale);
    }
  }

  /**
   * At an interrupt the motor keeps full power upwards exactly when more than 3 percent of the scale are left; and
   * downwards exactly when, moreover, 3 percent are at least one unit, for the comparison is unsigned.
   */
  lemma FullPower(s: State, scale: nat)
    requires Safe(s) && Moving(s) && 0 < Distance(s) < 0x8000_0000
    ensures var near, s' := Unsigned(3 * scale) / 100, Slowed(s, scale);
            && (s.up != 0 ==> s'.down == 0 && s'.up == if Distance(s) > near then 100 else P_MIN_STORE_UP)
            && (s.down != 0 ==> s'.up == 0 && s'.down == if Distance(s) > near > 0 then 100 else P_MIN_STORE_DOWN)
  {
    var near := Unsigned(3 * scale) / 100;
    if s.down != 0 {
      WrapNegative(Distance(s));
      if near > 0 { WrapNegative(near); }
    }
  }

  lemma WrapNegative(d: int)
    requires 0 < d < U32
    ensures Unsigned(-d) == U32 - d
  {}

  // ---------------------------------------------------------------- where it stops

  /** A direction has power. */
  predicate Moving(s: State) { s.down != 0 || s.up != 0 }

  function Distance(s: State): nat { if s.level < s.target then s.target - s.level else s.level - s.target }

  /** Interrupts while the motor turns towards the set point, and bounces, which storeIRQ does not count. */
  predicate Towards(es: seq<Event>, up: bool) {
    forall i | 0 <= i < |es| :: es[i].Edge? && (es[i].counted ==> es[i].increases == up)
  }

  function Counted(es: seq<Event>): nat {
    if es == [] then 0
    else Counted(es[..|es| - 1]) + if es[|es| - 1].Edge? && es[|es| - 1].counted then 1 else 0
  }

  lemma {:induction false} LevelMoves(s: State, es: seq<Event>, scale: nat, up: bool)
    requires Towards(es, up)
    ensures Run(s, es, scale).target == s.target
    ensures Run(s, es, scale).level == if up then s.level + Counted(es) else s.level - Counted(es)
    decreases |es|
  {
    if es != [] {
      hide Unsigned;
      assert forall i | 0 <= i < |es| - 1 :: es[..|es| - 1][i] == es[i];
      LevelMoves(s, es[..|es| - 1], scale, up);
    }
  }

  /**
   * After a command that starts the motor at distance d from the set point, and then only interrupts from its own
   * movement, the motor still has power exactly while fewer than d edges had been counted before the last interrupt.
   * So with every edge counted it stops at edge d + 1.
   */
  lemma {:induction false} StopsAfterDistance(s: State, es: seq<Event>, scale: nat)
    requires Safe(s) && Moving(s) && s.level != s.target && es != [] && Towards(es, s.up != 0)
    ensures Moving(Run(s, es, scale)) <==> Counted(es[..|es| - 1]) < Distance(s)
    ensures Moving(Run(s, es, scale)) ==> (Run(s, es, scale).up != 0 <==> s.up != 0)
    decreases |es|
  {
    hide Unsigned;
    var init, e := es[..|es| - 1], es[|es| - 1];
    assert forall i | 0 <= i < |init| :: init[i] == es[i];
    LevelMoves(s, init, scale, s.up != 0);
    if init != [] {
      StopsAfterDistance(s, init, scale);
      assert Counted(init[..|init| - 1]) <= Counted(init);
    }
    assert Run(s, es, scale) == Step(Run(s, init, scale), e, scale);
  }

  function Edges(k: nat, up: bool): seq<Event> { seq(k, _ => Edge(true, up)) }

  /** Every edge counted: `k` of them. */
  lemma {:induction false} StopsAtEdge(s: State, k: nat, scale: nat)
    requires Safe(s) && Moving(s) && s.level != s.target && k > 0
    ensures Moving(Run(s, Edges(k, s.up != 0), scale)) <==> k <= Distance(s)
  {
    var es := Edges(k, s.up != 0);
    StopsAfterDistance(s, es, scale);
    AllCounted(es[..k - 1]);
  }

  lemma {:induction false} AllCounted(es: seq<Event>)
    requires forall i | 0 <= i < |es| :: es[i].Edge? && es[i].counted
    ensures Counted(es) == |es|
    decreases |es|
  {
    if es != [] { AllCounted(es[..|es| - 1]); }
  }

  /** A command leaves the motor still exactly when the level is at the set point, and otherwise starts it. */
  lemma CommandStarts(s: State, value: nat, scale: nat)
    ensures var s' := Step(s, Command(value), scale);
            && Safe(s') && s'.level == s.level && 0 <= s'.target < U32 / 100 + 1
            && (Moving(s') <==> s'.level != s'.target)
            && (Moving(s') ==> (s'.up != 0 <==> s'.level < s'.target))
  {}

  // ---------------------------------------------------------------- what a command selects

  /**
   * `target` is `value` percent of the scale, rounded down, and 100 percent for every larger value; for scales whose
   * hundredfold leaves 32 bits, the product is wrapped before the division.
   */
  predicate Selects(target: int, value: nat, scale: nat) {
    var percent := if value > 100 then 100 else value;
    if 100 * scale < U32 then
      && 0 <= target <= scale
      && 100 * target <= percent * scale < 100 * target + 100
      && (value == 0 ==> target == 0) && (value >= 100 ==> target == scale)
    else
      100 * target <= (percent * scale) % U32 < 100 * target + 100
  }

  lemma {:induction false} CommandSelects(s: State, value: nat, scale: nat)
    ensures Selects(Step(s, Command(value), scale).target, value, scale)
  {
    var percent := if value > 100 then 100 else value;
    var product := percent * scale;
    Times(percent, 100, scale);
    Quotient(Unsigned(product));
    if 100 * scale < U32 { Small(product); }
  }

  lemma Times(k: nat, most: nat, x: nat)
    requires k <= most
    ensures k * x <= most * x
  {}

  lemma Small(x: nat)
    requires x < U32
    ensures Unsigned(x) == x
  {}

  lemma Quotient(x: nat)
    requires x < U32
    ensures 100 * (x / 100) <= x < 100 * (x / 100) + 100 && Signed(x / 100) == x / 100
  {}

  /** A larger value never selects a lower position. */
  lemma {:induction false} CommandIsMonotone(s: State, v: nat, w: nat, scale: nat)
    requires v <= w && 100 * scale < U32
    ensures Step(s, Command(v), scale).target <= Step(s, Command(w), scale).target
  {
    CommandSelects(s, v, scale);
    CommandSelects(s, w, scale);
    var v', w' := if v > 100 then 100 else v, if w > 100 then 100 else w;
    Times(v', w', scale);
  }

  /**
   * A command and the edges of the movement that it starts, from any state and to the end: the motor runs until one
   * edge past the set point, and then stands within one turn and one rounding of `value` percent of the scale.
   */
  lemma {:induction false} CommandIsReached(s: State, value: nat, scale: nat)
    requires value <= 100 && 100 * scale < U32
    ensures var s1 := Step(s, Command(value), scale);
            var up, d := s1.up != 0, Distance(s1);
            if d == 0 then !Moving(s1) && s1.level == s.level == s1.target
            else
              var t := Run(s1, Edges(d + 1, up), scale);
              && (forall k: nat | 0 < k <= d :: Moving(Run(s1, Edges(k, up), scale)))
              && !Moving(t) && t.target == s1.target && t.level == s1.target + (if up then 1 else -1)
              && value * scale - 200 < 100 * t.level <= value * scale + 100
  {
    CommandStarts(s, value, scale);
    CommandSelects(s, value, scale);
    var s1 := Step(s, Command(value), scale);
    hide Step, Run, Signed, Unsigned;
    var up, d := s1.up != 0, Distance(s1);
    if d != 0 {
      forall k: nat | 0 < k <= d ensures Moving(Run(s1, Edges(k, up), scale)) {
        StopsAtEdge(s1, k, scale);
      }
      StopsAtEdge(s1, d + 1, scale);
      var es := Edges(d + 1, up);
      LevelMoves(s1, es, scale, up);
      AllCounted(es);
    }
  }

  // ---------------------------------------------------------------- timeouts

  /**
   * A motor stopped by the timeout is taken to stand 0.2 percent of the scale past its set point, on the far side of
   * where it came from; a standing one keeps its level.
   */
  lemma {:induction false} TimeoutLevel(s: State, scale: nat)
    requires 0 <= s.target && s.target + scale < 0x8000_0000
    ensures var s' := Step(s, Timeout, scale);
            && !Moving(s') && s'.target == s.target
            && (if !Moving(s) then s'.level == s.level
                else Distance(s') == scale / 500 && (s.level < s.target ==> s'.level >= s.target)
                     && (s.level >= s.target ==> s'.level <= s.target))
  {
    var off := scale / 500;
    assert off <= scale;
    Wraps(s.target + off);
    Wraps(s.target - off);
  }

  /** A number that fits survives the way through unsigned int. */
  lemma Wraps(x: int)
    requires -0x8000_0000 <= x < 0x8000_0000
    ensures Signed(Unsigned(x)) == x
  {
    if x < 0 { assert x % U32 == x + U32; }
  }
}
