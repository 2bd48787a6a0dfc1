/** The software timers of domo/user/timer.c: a hardware tick, a table of callbacks, and callbacks that change it. */
module Timers {
  import opened MqttMsg

  /** A callback's address. */
  type Callback = nat

  /** callback_time; None is a NULL call_back. */
  datatype Slot = Slot(period: nat, cpt: int, callBack: Option<Callback>)

  /** What code, and callbacks in particular, may do to the table. */
  datatype Cmd =
    | Change(period: nat, callBack: Callback)
    | Remove(callBack: Callback)
    | Add(period: nat, callBack: Callback)

  // ---------------------------------------------------------------- the table as a value

  /** The first slot from `l` on with this call_back; the length of the table if there is none. */
  function Find(tab: seq<Slot>, cb: Option<Callback>, l: nat): (i: nat)
    requires l <= |tab|
    ensures l <= i <= |tab| && (i < |tab| ==> tab[i].callBack == cb)
    ensures forall j | l <= j < i :: tab[j].callBack != cb
    decreases |tab| - l
  {
    if l == |tab| || tab[l].callBack == cb then l else Find(tab, cb, l + 1)
  }

  function Do(tab: seq<Slot>, us: nat, cmd: Cmd): (r: seq<Slot>)
    requires us > 0
    ensures |r| == |tab|
  {
    match cmd
    case Change(period, cb) =>
      var i := Find(tab, Some(cb), 0);
      if i == |tab| then tab else tab[i := Slot(period / us, period / us, Some(cb))]
    case Remove(cb) =>
      var i := Find(tab, Some(cb), 0);
      if i == |tab| then tab else tab[i := tab[i].(cpt := 1000000, callBack := None)]
    case Add(period, cb) =>
      var i := Find(tab, None, 0);
      if i == |tab| then tab else tab[i := Slot(period / us, period / us, Some(cb))]
  }

  function DoAll(tab: seq<Slot>, us: nat, cmds: seq<Cmd>): (r: seq<Slot>)
    requires us > 0
    ensures |r| == |tab|
    decreases |cmds|
  {
    if cmds == [] then tab else DoAll(Do(tab, us, cmds[0]), us, cmds[1..])
  }

  /**
   * One round of the interrupt handler's loop, at slot `l`: the new table, and whether the slot fired. `script[l]` is
   * what the callback called from slot `l`, if it is, does to the table.
   */
  function Round(tab: seq<Slot>, us: nat, script: seq<seq<Cmd>>, l: nat): (r: (seq<Slot>, bool))
    requires us > 0 && l < |tab| == |script|
    ensures |r.0| == |tab| && (r.1 ==> tab[l].callBack.Some?)
  {
    var s := tab[l];
    if s.callBack.None? then (tab, false)
    else if s.cpt - 1 != 0 then (tab[l := s.(cpt := s.cpt - 1)], false)
    else (DoAll(tab[l := s.(cpt := s.period)], us, script[l]), true)
  }

  /** The handler from slot `l` on: the new table and the slots that fired. */
  function Walk(tab: seq<Slot>, us: nat, script: seq<seq<Cmd>>, l: nat): (r: (seq<Slot>, set<nat>))
    requires us > 0 && l <= |tab| == |script|
    ensures |r.0| == |tab|
    decreases |tab| - l
  {
    if l == |tab| then (tab, {})
    else
      var (t, fires) := Round(tab, us, script, l);
      var (t', fired) := Walk(t, us, script, l + 1);
      (t', if fires then fired + {l} else fired)
  }

  /** The callbacks called on that walk, in order. */
  function Called(tab: seq<Slot>, us: nat, script: seq<seq<Cmd>>, l: nat): seq<Callback>
    requires us > 0 && l <= |tab| == |script|
    decreases |tab| - l
  {
    if l == |tab| then []
    else
      var (t, fires) := Round(tab, us, script, l);
      (if fires then [tab[l].callBack.value] else []) + Called(t, us, script, l + 1)
  }

  function Tick(tab: seq<Slot>, us: nat, script: seq<seq<Cmd>>): (r: (seq<Slot>, set<nat>))
    requires us > 0 && |tab| == |script|
  {
    Walk(tab, us, script, 0)
  }

  // ---------------------------------------------------------------- timer.c itself

  class Timer {
    const us: nat
    const tab: array<Slot>

    ghost predicate Valid() { us > 0 }

    /** timer_init, as far as the table goes. */
    constructor (us: nat, slots: nat)
      requires us > 0
      ensures Valid() && this.us == us && fresh(tab) && tab.Length == slots
      ensures forall i | 0 <= i < slots :: tab[i].callBack == None
    {
      this.us := us;
      tab := new Slot[slots](_ => Slot(0, 0, None));
    }

    /** timer_change. */
    method Change(period: nat, cb: Callback)
      requires Valid()
      modifies tab
      ensures tab[..] == Do(old(tab[..]), us, Cmd.Change(period, cb))
    {
      for l := 0 to tab.Length
        invariant tab[..] == old(tab[..]) && Find(tab[..], Some(cb), l) == Find(tab[..], Some(cb), 0)
      {
        if tab[l].callBack == Some(cb) {
          tab[l] := tab[l].(period := period / us);
          tab[l] := tab[l].(cpt := tab[l].period);
          return;
        }
      }
    }

    /** timer_remove_callback. */
    method Remove(cb: Callback)
      requires Valid()
      modifies tab
      ensures tab[..] == Do(old(tab[..]), us, Cmd.Remove(cb))
    {
      for l := 0 to tab.Length
        invariant tab[..] == old(tab[..]) && Find(tab[..], Some(cb), l) == Find(tab[..], Some(cb), 0)
      {
        if tab[l].callBack == Some(cb) {
          tab[l] := tab[l].(cpt := 1000000, callBack := None);
          return;
        }
      }
    }

    /** timer_add_callback. */
    method Add(period: nat, cb: Callback)
      requires Valid()
      modifies tab
      ensures tab[..] == Do(old(tab[..]), us, Cmd.Add(period, cb))
    {
      for l := 0 to tab.Length
        invariant tab[..] == old(tab[..]) && Find(tab[..], None, l) == Find(tab[..], None, 0)
      {
        if tab[l].callBack == None {
          tab[l] := tab[l].(period := period / us);
          tab[l] := tab[l].(cpt := tab[l].period);
          tab[l] := tab[l].(callBack := Some(cb));
          return;
        }
      }
    }

    /** A callback at work. */
    method Call(cmds: seq<Cmd>)
      requires Valid()
      modifies tab
      ensures tab[..] == DoAll(old(tab[..]), us, cmds)
    {
      for i := 0 to |cmds|
        invariant DoAll(tab[..], us, cmds[i..]) == DoAll(old(tab[..]), us, cmds)
      {
        assert cmds[i..][0] == cmds[i] && cmds[i..][1..] == cmds[i + 1..];
        match cmds[i]
        case Change(period, cb) => Change(period, cb);
        case Remove(cb) => Remove(cb);
        case Add(period, cb) => Add(period, cb);
      }
    }

    /** timer_tim1_intr_handler. */
    method Handler(script: seq<seq<Cmd>>) returns (fired: set<nat>, called: seq<Callback>)
      requires Valid() && |script| == tab.Length
      modifies tab
      ensures (tab[..], fired) == Tick(old(tab[..]), us, script)
      ensures called == Called(old(tab[..]), us, script, 0)
    {
      fired, called := {}, [];
      for l := 0 to tab.Length
        invariant Walk(tab[..], us, script, l).0 == Tick(old(tab[..]), us, script).0
        invariant fired + Walk(tab[..], us, script, l).1 == Tick(old(tab[..]), us, script).1
        invariant called + Called(tab[..], us, script, l) == Called(old(tab[..]), us, script, 0)
      {
        ghost var before := tab[..];
        if tab[l].callBack.Some? {
          tab[l] := tab[l].(cpt := tab[l].cpt - 1);
          if tab[l].cpt == 0 {
            tab[l] := tab[l].(cpt := tab[l].period);
            assert tab[..] == before[l := before[l].(cpt := before[l].period)];
            fired, called := fired + {l}, called + [tab[l].callBack.value];
            Call(script[l]);
          } else {
            assert tab[..] == before[l := before[l].(cpt := before[l].cpt - 1)];
          }
        }
      }
    }
  }

  // ---------------------------------------------------------------- one callback among others

  /** Callback `c` is registered once, in slot `m`. */
  predicate Owns(tab: seq<Slot>, m: nat, c: Callback) {
    m < |tab| && forall l | 0 <= l < |tab| :: tab[l].callBack == Some(c) <==> l == m
  }

  predicate Spares(cmds: seq<Cmd>, c: Callback) { forall i | 0 <= i < |cmds| :: cmds[i].callBack != c }

  /** A slot after a tick in which nobody touched it. */
  function Ticked(s: Slot): Slot { s.(cpt := if s.cpt == 1 then s.period else s.cpt - 1) }

  lemma {:induction false} SparedDo(tab: seq<Slot>, us: nat, cmd: Cmd, m: nat, c: Callback)
    requires us > 0 && Owns(tab, m, c) && cmd.callBack != c
    ensures var r := Do(tab, us, cmd); Owns(r, m, c) && r[m] == tab[m]
  {}

  lemma {:induction false} SparedDoAll(tab: seq<Slot>, us: nat, cmds: seq<Cmd>, m: nat, c: Callback)
    requires us > 0 && Owns(tab, m, c) && Spares(cmds, c)
    ensures var r := DoAll(tab, us, cmds); Owns(r, m, c) && r[m] == tab[m]
    decreases |cmds|
  {
    if cmds != [] {
      SparedDo(tab, us, cmds[0], m, c);
      SparedDoAll(Do(tab, us, cmds[0]), us, cmds[1..], m, c);
    }
  }

  /** No callback from slot `l` on, except perhaps that of slot `k`, touches `c`. */
  predicate SparedBut(script: seq<seq<Cmd>>, l: nat, k: int, c: Callback) {
    forall i | l <= i < |script| && i != k :: Spares(script[i], c)
  }

  lemma {:induction false} SparedRound(tab: seq<Slot>, us: nat, script: seq<seq<Cmd>>, l: nat, m: nat, c: Callback)
    requires us > 0 && l < |tab| == |script| && Owns(tab, m, c) && Spares(script[l], c)
    ensures var (t, fires) := Round(tab, us, script, l);
            && Owns(t, m, c) && t[m] == (if l == m then Ticked(tab[m]) else tab[m])
            && (l == m ==> (fires <==> tab[m].cpt == 1))
  {
    var s := tab[l];
    if s.callBack.Some? && s.cpt == 1 {
      SparedDoAll(tab[l := s.(cpt := s.period)], us, script[l], m, c);
    }
  }

  /** A slot that the other callbacks spare counts down by one in a tick, and fires exactly when its count was one. */
  lemma {:induction false} SparedWalk(tab: seq<Slot>, us: nat, script: seq<seq<Cmd>>, l: nat, m: nat, c: Callback)
    requires us > 0 && l <= |tab| == |script| && Owns(tab, m, c) && SparedBut(script, l, -1, c)
    ensures var (t, fired) := Walk(tab, us, script, l);
            && Owns(t, m, c) && t[m] == (if l <= m then Ticked(tab[m]) else tab[m])
            && (m in fired <==> l <= m && tab[m].cpt == 1) && (forall i | i in fired :: i >= l)
    decreases |tab| - l
  {
    hide Round;
    if l < |tab| {
      SparedRound(tab, us, script, l, m, c);
      SparedWalk(Round(tab, us, script, l).0, us, script, l + 1, m, c);
    }
  }

  /** The same for a slot whose own callback would touch it, but is not due. */
  lemma {:induction false} IdleWalk(tab: seq<Slot>, us: nat, script: seq<seq<Cmd>>, l: nat, m: nat, c: Callback)
    requires us > 0 && l <= m < |tab| == |script| && Owns(tab, m, c) && SparedBut(script, l, m, c) && tab[m].cpt != 1
    ensures var (t, fired) := Walk(tab, us, script, l);
            Owns(t, m, c) && t[m] == Ticked(tab[m]) && m !in fired
    decreases m - l
  {
    var t := Round(tab, us, script, l).0;
    if l == m {
      assert t == tab[m := Ticked(tab[m])];
      SparedWalk(t, us, script, l + 1, m, c);
    } else {
      hide Round;
      SparedRound(tab, us, script, l, m, c);
      IdleWalk(t, us, script, l + 1, m, c);
    }
  }

  // ---------------------------------------------------------------- exactness over whole runs

  /** A tick of the hardware timer, or code outside the handler at work on the table. */
  datatype Event = HardwareTick(script: seq<seq<Cmd>>) | Outside(cmd: Cmd)

  ghost predicate SparesAll(es: seq<Event>, slots: nat, c: Callback) {
    forall i | 0 <= i < |es| ::
      match es[i]
      case HardwareTick(script) => |script| == slots && SparedBut(script, 0, -1, c)
      case Outside(cmd) => cmd.callBack != c
  }

  /** The table after a run, and for each of its ticks whether slot `m` fired. */
  function Exec(tab: seq<Slot>, us: nat, es: seq<Event>, m: nat): (r: (seq<Slot>, seq<bool>))
    requires us > 0 && forall i | 0 <= i < |es| && es[i].HardwareTick? :: |es[i].script| == |tab|
    ensures |r.0| == |tab|
  {
    if es == [] then (tab, [])
    else
      var (t, fires) := Exec(tab, us, es[..|es| - 1], m);
      match es[|es| - 1]
      case HardwareTick(script) => var (t', fired) := Tick(t, us, script); (t', fires + [m in fired])
      case Outside(cmd) => (Do(t, us, cmd), fires)
  }

  function Count(bs: seq<bool>): nat {
    if bs == [] then 0 else Count(bs[..|bs| - 1]) + if bs[|bs| - 1] then 1 else 0
  }

  lemma ModNext(t: nat, n: nat)
    requires n >= 1
    ensures (t + 1) % n == (if t % n == n - 1 then 0 else t % n + 1)
    ensures (t + 1) / n == t / n + if t % n == n - 1 then 1 else 0
  {
    var q, r := t / n, t % n;
    assert t == q * n + r;
    if r == n - 1 {
      assert t + 1 == (q + 1) * n;
      DivMod(t + 1, n, q + 1, 0);
    } else {
      DivMod(t + 1, n, q, r + 1);
    }
  }

  lemma AtLeastOnce(d: int, n: nat)
    requires d >= 1
    ensures d * n >= n
  {}

  lemma DivMod(x: nat, n: nat, q: nat, r: nat)
    requires n >= 1 && x == q * n + r && r < n
    ensures x / n == q && x % n == r
  {
    var q', r' := x / n, x % n;
    var d := q - q';
    assert d * n == q * n - q' * n == r' - r;
    if d >= 1 { AtLeastOnce(d, n); }
    if d <= -1 { AtLeastOnce(-d, n); }
  }

  /** Ticks counted after tick `q`, modulo `n`: how far the count of a slot that fired at `q` has come. */
  function Since(ticks: nat, q: nat, n: nat): nat
    requires q <= ticks && n >= 1
  {
    (ticks - q) % n
  }

  /** The count of a slot that started with `q` and reloads with `n`. */
  function CountAfter(ticks: nat, q: nat, n: nat): int
    requires n >= 1
  {
    if ticks < q then q - ticks else n - Since(ticks, q, n)
  }

  /** Whether it fires at that tick: at tick `q`, and then at every `n`-th one. */
  predicate Due(tick: nat, q: nat, n: nat)
    requires n >= 1
  {
    tick >= q && Since(tick, q, n) == 0
  }

  /** How often it has fired by then. */
  function Fired(ticks: nat, q: nat, n: nat): nat
    requires n >= 1
  {
    if ticks < q then 0 else (ticks - q) / n + 1
  }

  lemma {:induction false} NextTick(t: nat, q: nat, n: nat)
    requires n >= 1 && q >= 1
    ensures CountAfter(t + 1, q, n) == if CountAfter(t, q, n) == 1 then n else CountAfter(t, q, n) - 1
    ensures Due(t + 1, q, n) <==> CountAfter(t, q, n) == 1
    ensures Fired(t + 1, q, n) == Fired(t, q, n) + if Due(t + 1, q, n) then 1 else 0
  {
    if t + 1 == q {
      DivMod(0, n, 0, 0);
    } else if t >= q {
      ModNext(t - q, n);
      assert (t - q) % n < n;
    }
  }

  lemma {:induction false} NoTick(q: nat, n: nat)
    requires n >= 1 && q >= 1
    ensures CountAfter(0, q, n) == q && Fired(0, q, n) == 0
  {}

  /**
   * A callback registered once, with `n` ticks of which `q` are left, and left alone by the rest of the program fires
   * at ticks q, q + n, q + 2n and at no others, whatever the other callbacks do to each other.
   */
  lemma {:induction false} FiresFrom(tab: seq<Slot>, us: nat, es: seq<Event>, m: nat, c: Callback, q: nat, n: nat)
    requires us > 0 && Owns(tab, m, c) && n >= 1 && q >= 1 && tab[m] == Slot(n, q, Some(c)) && SparesAll(es, |tab|, c)
    ensures var (t, fires) := Exec(tab, us, es, m);
            && Owns(t, m, c) && t[m] == Slot(n, CountAfter(|fires|, q, n), Some(c))
            && (forall i | 0 <= i < |fires| :: fires[i] <==> Due(i + 1, q, n))
            && Count(fires) == Fired(|fires|, q, n)
    decreases |es|
  {
    hide Walk, Owns, CountAfter, Due, Fired;
    if es == [] {
      NoTick(q, n);
    } else {
      var init, e := es[..|es| - 1], es[|es| - 1];
      assert forall i | 0 <= i < |init| :: init[i] == es[i];
      FiresFrom(tab, us, init, m, c, q, n);
      var (t, fires) := Exec(tab, us, init, m);
      match e
      case HardwareTick(script) =>
        SparedWalk(t, us, script, 0, m, c);
        NextTick(|fires|, q, n);
        var fires' := fires + [m in Tick(t, us, script).1];
        assert fires'[..|fires|] == fires;
      case Outside(cmd) =>
        SparedDo(t, us, cmd, m, c);
    }
  }

  /** Freshly registered with `n` ticks: it fires at ticks n, 2n, 3n and at no others, `N / n` times in `N` ticks. */
  lemma {:induction false} FiresExactly(tab: seq<Slot>, us: nat, es: seq<Event>, m: nat, c: Callback, n: nat)
    requires us > 0 && Owns(tab, m, c) && n >= 1 && tab[m] == Slot(n, n, Some(c)) && SparesAll(es, |tab|, c)
    ensures var (t, fires) := Exec(tab, us, es, m);
            && Owns(t, m, c) && t[m] == Slot(n, n - |fires| % n, Some(c))
            && (forall i | 0 <= i < |fires| :: fires[i] <==> (i + 1) % n == 0)
            && Count(fires) == |fires| / n
  {
    FiresFrom(tab, us, es, m, c, n, n);
    var fires := Exec(tab, us, es, m).1;
    hide Exec, Count, Owns;
    FromStart(|fires|, n);
    forall i | 0 <= i < |fires| ensures fires[i] <==> (i + 1) % n == 0 { FromStart(i + 1, n); }
  }

  lemma {:induction false} FromStart(t: nat, n: nat)
    requires n >= 1
    ensures CountAfter(t, n, n) == n - t % n && Fired(t, n, n) == t / n && (t > 0 ==> (Due(t, n, n) <==> t % n == 0))
  {
    if t < n {
      DivMod(t, n, 0, t);
    } else {
      var q, r := (t - n) / n, (t - n) % n;
      assert t == (q + 1) * n + r;
      DivMod(t, n, q + 1, r);
    }
  }

  // ---------------------------------------------------------------- from registration to removal

  /** Callback `c` is registered nowhere. */
  predicate Absent(tab: seq<Slot>, c: Callback) { forall l | 0 <= l < |tab| :: tab[l].callBack != Some(c) }

  /** Registering a callback takes the first free slot, if there is one, and nothing else. */
  lemma {:induction false} AddRegisters(tab: seq<Slot>, us: nat, period: nat, c: Callback) returns (m: nat)
    requires us > 0 && Absent(tab, c)
    ensures var r := Do(tab, us, Add(period, c));
            if exists l :: 0 <= l < |tab| && tab[l].callBack.None? then
              && Owns(r, m, c) && tab[m].callBack.None? && r[m] == Slot(period / us, period / us, Some(c))
              && (forall l | 0 <= l < |tab| && l != m :: r[l] == tab[l])
              && (forall l | 0 <= l < m :: tab[l].callBack.Some?)
            else r == tab
  {
    m := Find(tab, None, 0);
  }

  /** From its registration on, a callback that is left alone is called every `period / us` ticks. */
  lemma {:induction false} AddedFires(tab: seq<Slot>, us: nat, period: nat, c: Callback, es: seq<Event>)
      returns (m: nat)
    requires us > 0 && Absent(tab, c) && period / us >= 1 && SparesAll(es, |tab|, c)
    requires exists l :: 0 <= l < |tab| && tab[l].callBack.None?
    ensures var r, n := Do(tab, us, Add(period, c)), period / us;
            var fires := Exec(r, us, es, m).1;
            && m < |tab| && (forall i | 0 <= i < |fires| :: fires[i] <==> (i + 1) % n == 0)
            && Count(fires) == |fires| / n
  {
    m := AddRegisters(tab, us, period, c);
    hide Do, Exec, Count, Owns;
    FiresExactly(Do(tab, us, Add(period, c)), us, es, m, c, period / us);
  }

  /** The slot of a registered callback fires in a tick if and only if that callback is called in it. */
  lemma {:induction false} FiringCalls(tab: seq<Slot>, us: nat, script: seq<seq<Cmd>>, l: nat, m: nat, c: Callback)
    requires us > 0 && l <= |tab| == |script| && Owns(tab, m, c) && SparedBut(script, l, -1, c)
    ensures c in Called(tab, us, script, l) <==> m in Walk(tab, us, script, l).1
    decreases |tab| - l
  {
    if l < |tab| {
      hide Round;
      var t := Round(tab, us, script, l).0;
      SparedRound(tab, us, script, l, m, c);
      FiringCalls(t, us, script, l + 1, m, c);
      SparedWalk(t, us, script, l + 1, m, c);
    }
  }

  /** Removing a callback that is registered once leaves it registered nowhere, and every other slot as it was. */
  lemma {:induction false} RemoveUnregisters(tab: seq<Slot>, us: nat, m: nat, c: Callback)
    requires us > 0 && Owns(tab, m, c)
    ensures var r := Do(tab, us, Remove(c));
            Absent(r, c) && forall l | 0 <= l < |tab| && l != m :: r[l] == tab[l]
  {
    assert tab[m].callBack == Some(c);
    var i := Find(tab, Some(c), 0);
    assert i == m;
  }

  lemma {:induction false} AbsentDo(tab: seq<Slot>, us: nat, cmd: Cmd, c: Callback)
    requires us > 0 && Absent(tab, c) && cmd.callBack != c
    ensures Absent(Do(tab, us, cmd), c)
  {}

  lemma {:induction false} AbsentDoAll(tab: seq<Slot>, us: nat, cmds: seq<Cmd>, c: Callback)
    requires us > 0 && Absent(tab, c) && Spares(cmds, c)
    ensures Absent(DoAll(tab, us, cmds), c)
    decreases |cmds|
  {
    if cmds != [] {
      AbsentDo(tab, us, cmds[0], c);
      AbsentDoAll(Do(tab, us, cmds[0]), us, cmds[1..], c);
    }
  }

  lemma {:induction false} AbsentRound(tab: seq<Slot>, us: nat, script: seq<seq<Cmd>>, l: nat, c: Callback)
    requires us > 0 && l < |tab| == |script| && Absent(tab, c) && Spares(script[l], c)
    ensures Absent(Round(tab, us, script, l).0, c)
  {
    hide DoAll, Do;
    var s := tab[l];
    if s.callBack.Some? && s.cpt == 1 {
      var t := tab[l := s.(cpt := s.period)];
      assert forall i | 0 <= i < |tab| :: t[i].callBack == tab[i].callBack;
      AbsentDoAll(t, us, script[l], c);
    }
  }

  lemma {:induction false} AbsentWalk(tab: seq<Slot>, us: nat, script: seq<seq<Cmd>>, l: nat, c: Callback)
    requires us > 0 && l <= |tab| == |script| && Absent(tab, c) && SparedBut(script, l, -1, c)
    ensures Absent(Walk(tab, us, script, l).0, c) && c !in Called(tab, us, script, l)
    decreases |tab| - l
  {
    if l < |tab| {
      hide Round;
      AbsentRound(tab, us, script, l, c);
      AbsentWalk(Round(tab, us, script, l).0, us, script, l + 1, c);
    }
  }

  /** All callbacks called during a run. */
  function CalledIn(tab: seq<Slot>, us: nat, es: seq<Event>): seq<Callback>
    requires us > 0 && forall i | 0 <= i < |es| && es[i].HardwareTick? :: |es[i].script| == |tab|
  {
    if es == [] then []
    else
      var before := CalledIn(tab, us, es[..|es| - 1]);
      match es[|es| - 1]
      case HardwareTick(script) => before + Called(Exec(tab, us, es[..|es| - 1], 0).0, us, script, 0)
      case Outside(_) => before
  }

  /** A callback that was removed is never called again, unless somebody registers it again. */
  lemma {:induction false} RemovedIsNeverCalled(tab: seq<Slot>, us: nat, m: nat, c: Callback, es: seq<Event>)
    requires us > 0 && Owns(tab, m, c) && SparesAll(es, |tab|, c)
    ensures c !in CalledIn(Do(tab, us, Remove(c)), us, es)
  {
    RemoveUnregisters(tab, us, m, c);
    hide Do;
    AbsentIsNeverCalled(Do(tab, us, Remove(c)), us, c, es);
  }

  lemma {:induction false} AbsentIsNeverCalled(tab: seq<Slot>, us: nat, c: Callback, es: seq<Event>)
    requires us > 0 && Absent(tab, c) && SparesAll(es, |tab|, c)
    ensures Absent(Exec(tab, us, es, 0).0, c) && c !in CalledIn(tab, us, es)
    decreases |es|
  {
    if es != [] {
      hide Walk, Called, Do, Absent;
      var init, e := es[..|es| - 1], es[|es| - 1];
      assert forall i | 0 <= i < |init| :: init[i] == es[i];
      AbsentIsNeverCalled(tab, us, c, init);
      var t := Exec(tab, us, init, 0).0;
      match e
      case HardwareTick(script) => AbsentWalk(t, us, script, 0, c);
      case Outside(cmd) => AbsentDo(t, us, cmd, c);
    }
  }

  // ---------------------------------------------------------------- the next fire

  /** Nothing but callback `c` itself, in slot `m`, touches `c`. */
  ghost predicate SparesButItself(es: seq<Event>, slots: nat, m: nat, c: Callback) {
    forall i | 0 <= i < |es| ::
      match es[i]
      case HardwareTick(script) => |script| == slots && SparedBut(script, 0, m, c)
      case Outside(cmd) => cmd.callBack != c
  }

  /** A slot whose count is one fires, whatever its own callback is going to do. */
  lemma {:induction false} DueWalk(tab: seq<Slot>, us: nat, script: seq<seq<Cmd>>, l: nat, m: nat, c: Callback)
    requires us > 0 && l <= m < |tab| == |script| && Owns(tab, m, c) && SparedBut(script, l, m, c) && tab[m].cpt == 1
    ensures m in Walk(tab, us, script, l).1
    decreases m - l
  {
    if l < m {
      hide Round;
      SparedRound(tab, us, script, l, m, c);
      DueWalk(Round(tab, us, script, l).0, us, script, l + 1, m, c);
    } else {
      hide Walk, DoAll;
      FiresInRound(tab, us, script, m);
    }
  }

  lemma FiresInRound(tab: seq<Slot>, us: nat, script: seq<seq<Cmd>>, m: nat)
    requires us > 0 && m < |tab| == |script| && Round(tab, us, script, m).1
    ensures m in Walk(tab, us, script, m).1
  {
    hide Round;
  }

  /**
   * A slot with `q` ticks left fires at tick `q` and at none before, whatever other callbacks do to each other, and
   * whatever its own callback does when it is called.
   */
  lemma {:induction false} FirstFire(tab: seq<Slot>, us: nat, es: seq<Event>, m: nat, c: Callback, q: nat)
    requires us > 0 && Owns(tab, m, c) && q >= 1 && tab[m].cpt == q && SparesButItself(es, |tab|, m, c)
    ensures var (t, fires) := Exec(tab, us, es, m);
            && (|fires| < q ==> Owns(t, m, c) && t[m] == tab[m].(cpt := q - |fires|))
            && (forall i | 0 <= i < |fires| && i < q :: fires[i] <==> i + 1 == q)
    decreases |es|
  {
    hide Walk, Owns;
    if es != [] {
      var init, e := es[..|es| - 1], es[|es| - 1];
      assert forall i | 0 <= i < |init| :: init[i] == es[i];
      FirstFire(tab, us, init, m, c, q);
      var (t, fires) := Exec(tab, us, init, m);
      if |fires| < q {
        OwnsSlot(t, m, c);
        match e
        case HardwareTick(script) =>
          if t[m].cpt == 1 { DueWalk(t, us, script, 0, m, c); } else { IdleWalk(t, us, script, 0, m, c); }
        case Outside(cmd) =>
          SparedDo(t, us, cmd, m, c);
      }
    }
  }

  lemma OwnsSlot(tab: seq<Slot>, m: nat, c: Callback)
    requires Owns(tab, m, c)
    ensures m < |tab|
  {}

  /** Commands among which exactly one concerns `c`: a change of its period. */
  lemma {:induction false} OneChange(tab: seq<Slot>, us: nat, pre: seq<Cmd>, period: nat, post: seq<Cmd>,
                                     m: nat, c: Callback)
    requires us > 0 && Owns(tab, m, c) && Spares(pre, c) && Spares(post, c)
    ensures var r := DoAll(tab, us, pre + [Cmd.Change(period, c)] + post);
            Owns(r, m, c) && r[m] == Slot(period / us, period / us, Some(c))
    decreases |pre|
  {
    var change := Cmd.Change(period, c);
    var all := pre + [change] + post;
    if pre == [] {
      assert all[0] == change && all[1..] == post;
      assert tab[m].callBack == Some(c);
      var i := Find(tab, Some(c), 0);
      assert i < |tab| && tab[i].callBack == Some(c);
      SparedDoAll(Do(tab, us, change), us, post, m, c);
    } else {
      assert all[0] == pre[0] && all[1..] == pre[1..] + [change] + post;
      SparedDo(tab, us, pre[0], m, c);
      OneChange(Do(tab, us, pre[0]), us, pre[1..], period, post, m, c);
    }
  }

  /** In the round in which it fires, slot `k` changes the period of `c`, its own or another slot's. */
  lemma {:induction false} ChangingRound(tab: seq<Slot>, us: nat, script: seq<seq<Cmd>>, k: nat, m: nat, c: Callback,
                                         pre: seq<Cmd>, period: nat, post: seq<Cmd>)
    requires us > 0 && k < |tab| == |script| && Owns(tab, m, c) && tab[k].callBack.Some? && tab[k].cpt == 1
    requires script[k] == pre + [Cmd.Change(period, c)] + post && Spares(pre, c) && Spares(post, c)
    ensures var (t, fires) := Round(tab, us, script, k);
            fires && Owns(t, m, c) && t[m] == Slot(period / us, period / us, Some(c))
  {
    OneChange(tab[k := tab[k].(cpt := tab[k].period)], us, pre, period, post, m, c);
  }

  /** Slot `k`, from slot `l` on, is going to fire: its own count is one, and callbacks before it spare it. */
  lemma {:induction false} ChangingWalk(tab: seq<Slot>, us: nat, script: seq<seq<Cmd>>, l: nat, k: nat, d: Callback,
                                        m: nat, c: Callback, pre: seq<Cmd>, period: nat, post: seq<Cmd>)
    requires us > 0 && l <= k < |tab| == |script| && Owns(tab, k, d) && tab[k].cpt == 1 && Owns(tab, m, c)
    requires SparedBut(script, l, k, c) && SparedBut(script, l, k, d)
    requires script[k] == pre + [Cmd.Change(period, c)] + post && Spares(pre, c) && Spares(post, c)
    ensures var (t, fired) := Walk(tab, us, script, l);
            var changed := Slot(period / us, period / us, Some(c));
            && k in fired && Owns(t, m, c)
            && t[m] == (if k < m then Ticked(changed) else changed)
            && (k < m ==> (m in fired <==> changed.cpt == 1))
    decreases k - l
  {
    hide Round, Do, DoAll;
    var t := Round(tab, us, script, l).0;
    if l == k {
      ChangingRound(tab, us, script, k, m, c, pre, period, post);
      SparedWalk(t, us, script, l + 1, m, c);
    } else {
      SparedRound(tab, us, script, l, m, c);
      SparedRound(tab, us, script, l, k, d);
      ChangingWalk(t, us, script, l + 1, k, d, m, c, pre, period, post);
    }
  }

  /**
   * A callback that changes its own period from inside the handler next fires exactly the new number of ticks
   * later, and at no tick before; so does an earlier slot whose period it changes. A later slot fires one tick sooner
   * than that: in the same tick, and then one tick later again, if the new period is one tick.
   */
  lemma {:induction false} ChangeFromInside(
    tab: seq<Slot>, us: nat, script: seq<seq<Cmd>>, k: nat, d: Callback, m: nat, c: Callback,
    pre: seq<Cmd>, period: nat, post: seq<Cmd>, es: seq<Event>)
    requires us > 0 && k < |tab| == |script| && Owns(tab, k, d) && tab[k].cpt == 1 && Owns(tab, m, c)
    requires SparedBut(script, 0, k, c) && SparedBut(script, 0, k, d)
    requires script[k] == pre + [Cmd.Change(period, c)] + post && Spares(pre, c) && Spares(post, c)
    requires period / us >= 1 && SparesButItself(es, |tab|, m, c)
    ensures var (t, fired) := Tick(tab, us, script);
            var n := period / us;
            var wait := if k < m && n > 1 then n - 1 else n;
            var fires := Exec(t, us, es, m).1;
            && k in fired && Owns(t, m, c) && t[m] == Slot(n, wait, Some(c))
            && (k < m ==> (m in fired <==> n == 1))
            && (forall i | 0 <= i < |fires| && i < wait :: fires[i] <==> i + 1 == wait)
  {
    ChangingWalk(tab, us, script, 0, k, d, m, c, pre, period, post);
    hide Walk, Exec, Owns;
    var t, n := Tick(tab, us, script).0, period / us;
    FirstFire(t, us, es, m, c, if k < m && n > 1 then n - 1 else n);
  }
}
