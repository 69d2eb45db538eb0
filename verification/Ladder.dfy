/** The watermark ladder of the background sweep: when it starts a pass, and whether
    it ever stops. */
module Ladder {

  /** Size of the RAW zone in blocks and the watermark in percent. */
  datatype Config = Config(total: nat, watermark: nat)

  /** The ladder's own variables. */
  datatype State = State(floor: nat, owed: bool, first: bool)

  /** What the daemon reads after a pass. */
  datatype Reading = Reading(fill: nat, window: bool, reclaimed: nat)

  predicate Over(cfg: Config, fill: nat) {
    cfg.total > 0 && fill * 100 > cfg.watermark * cfg.total
  }

  /** Whether a tick at this fill starts a pass. */
  predicate Kicks(cfg: Config, s: State, fill: nat) {
    cfg.watermark > 0 && cfg.total > 0 &&
    if s.owed then Over(cfg, fill) || s.first else Over(cfg, fill) && fill > s.floor
  }

  /** The ladder after a tick that started no pass. */
  function Idle(cfg: Config, s: State, fill: nat): State {
    if cfg.watermark > 0 && cfg.total > 0 && !Over(cfg, fill) then s.(floor := 0) else s
  }

  /** The ladder after a pass that ended with reading `r`. */
  function AfterPass(s: State, r: Reading): State {
    State(r.fill, r.window && (!s.owed || r.reclaimed > 0), false)
  }

  /** The mount-time seed: a window left live by an earlier mount holds that mount's debt. */
  function Seed(cfg: Config, live: bool, fill: nat): State {
    if cfg.watermark > 0 && live then State(if cfg.total > 0 then fill else 0, true, true) else State(0, false, true)
  }

  /** The thread's variables, updated in place by every tick. */
  class SweepLadder {
    var floor: nat
    var owed: bool
    var first: bool

    ghost function Abs(): State
      reads this
    {
      State(floor, owed, first)
    }

    constructor (cfg: Config, live: bool, fill: nat)
      ensures Abs() == Seed(cfg, live, fill)
    {
      floor, owed, first := 0, false, true;
      if cfg.watermark > 0 {
        if live {
          if cfg.total > 0 { floor := fill; }
          owed := true;
        }
      }
    }

    /** One tick. `pass` is what the daemon reads if a pass is run. */
    method Tick(cfg: Config, fill: nat, pass: Reading) returns (ran: bool)
      modifies this
      ensures ran == Kicks(cfg, old(Abs()), fill)
      ensures Abs() == if ran then AfterPass(old(Abs()), pass) else Idle(cfg, old(Abs()), fill)
    {
      ran := false;
      if cfg.watermark > 0 {
        var over := cfg.total > 0 && fill * 100 > cfg.watermark * cfg.total;
        if cfg.total > 0 && !over { floor := 0; }
        if cfg.total > 0 && (if owed then over || first else over && fill > floor) {
          var kicked := !owed;
          first := false;
          floor := pass.fill;
          owed := pass.window && (kicked || pass.reclaimed > 0);
          ran := true;
        }
      }
    }
  }

  // ---- accounting under any environment ----

  /** One tick of any environment: the fill it finds, and what a pass would end with. */
  datatype Env = Env(fill: nat, pass: Reading)

  /** The RAW zone is at its mark or under it. */
  predicate Calm(cfg: Config, e: Env) {
    e.fill * 100 <= cfg.watermark * cfg.total
  }

  /** The thread over a sequence of ticks. None starts a pass on a ladder that is switched
      off; a calm tick starts one only if it is the first and the debt is an earlier
      mount's; and a tick over the mark starts one whenever the tick before it was calm and
      started none. */
  method Serve(l: SweepLadder, cfg: Config, envs: seq<Env>) returns (ran: seq<bool>)
    modifies l
    ensures |ran| == |envs| && l.Abs() == Run(cfg, old(l.Abs()), envs)
    ensures forall j :: 0 <= j < |ran| && ran[j] ==> cfg.watermark > 0 && cfg.total > 0
    ensures forall j :: 0 <= j < |ran| && ran[j] && Calm(cfg, envs[j]) ==> j == 0 && old(l.first) && old(l.owed)
    ensures cfg.watermark > 0 && cfg.total > 0 ==> forall i, j | 0 <= i < j == i + 1 < |ran| ::
              !ran[i] && Calm(cfg, envs[i]) && !Calm(cfg, envs[j]) ==> ran[j]
  {
    ran := [];
    ghost var s := l.Abs();
    for k := 0 to |envs|
      invariant |ran| == k && Run(cfg, s, envs) == Run(cfg, l.Abs(), envs[k..])
      invariant k == 0 ==> l.Abs() == s
      invariant k > 0 && cfg.watermark > 0 && cfg.total > 0 ==> !(l.first && l.owed)
      invariant k > 0 && cfg.watermark > 0 && cfg.total > 0 && !ran[k - 1] && Calm(cfg, envs[k - 1]) ==> l.floor == 0
      invariant forall j :: 0 <= j < k && ran[j] ==> cfg.watermark > 0 && cfg.total > 0
      invariant forall j :: 0 <= j < k && ran[j] && Calm(cfg, envs[j]) ==> j == 0 && old(l.first) && old(l.owed)
      invariant cfg.watermark > 0 && cfg.total > 0 ==> forall i, j | 0 <= i < j == i + 1 < k ::
                  !ran[i] && Calm(cfg, envs[i]) && !Calm(cfg, envs[j]) ==> ran[j]
    {
      var r := l.Tick(cfg, envs[k].fill, envs[k].pass);
      ran := ran + [r];
      assert envs[k..][1..] == envs[k + 1..];
    }
  }

  /** Passes kicked by fresh pressure, passes that discharge a debt, and passes whose
      capture reclaimed something. */
  datatype Tally = Tally(pressed: nat, discharge: nat, reclaiming: nat)

  function Step(cfg: Config, s: State, e: Env): State {
    if Kicks(cfg, s, e.fill) then AfterPass(s, e.pass) else Idle(cfg, s, e.fill)
  }

  function Run(cfg: Config, s: State, envs: seq<Env>): State
    decreases |envs|
  {
    if envs == [] then s else Run(cfg, Step(cfg, s, envs[0]), envs[1..])
  }

  function Count(cfg: Config, s: State, envs: seq<Env>): Tally
    decreases |envs|
  {
    if envs == [] then Tally(0, 0, 0) else
      var t := Count(cfg, Step(cfg, s, envs[0]), envs[1..]);
      if !Kicks(cfg, s, envs[0].fill) then t
      else Tally(t.pressed + (if s.owed then 0 else 1), t.discharge + (if s.owed then 1 else 0),
                 t.reclaiming + (if envs[0].pass.reclaimed > 0 then 1 else 0))
  }

  /** A calm tick that starts no pass re-arms the ladder: the next tick over the mark starts
      one, whatever the ladder last gave up at. */
  lemma CalmReArms(cfg: Config, s: State, fill: nat, fill': nat)
    requires cfg.watermark > 0 && cfg.total > 0 && fill * 100 <= cfg.watermark * cfg.total < fill' * 100
    requires !Kicks(cfg, s, fill)
    ensures Kicks(cfg, Idle(cfg, s, fill), fill')
  {
  }

  /** None of the ticks starts a pass. */
  predicate Silent(cfg: Config, s: State, envs: seq<Env>) {
    Count(cfg, s, envs).pressed == 0 && Count(cfg, s, envs).discharge == 0
  }

  lemma {:induction false} SilentRun(cfg: Config, s: State, envs: seq<Env>)
    requires cfg.watermark > 0 && cfg.total > 0 && Silent(cfg, s, envs)
    ensures Run(cfg, s, envs) == s.(floor := if exists e :: e in envs && Calm(cfg, e) then 0 else s.floor)
    decreases |envs|
  {
    if envs != [] {
      SilentRun(cfg, Step(cfg, s, envs[0]), envs[1..]);
      CalmSplit(cfg, envs);
      assert Idle(cfg, s, envs[0].fill) == if Calm(cfg, envs[0]) then s.(floor := 0) else s;
    }
  }

  lemma CalmSplit(cfg: Config, envs: seq<Env>)
    requires envs != []
    ensures (exists e :: e in envs && Calm(cfg, e)) <==>
              Calm(cfg, envs[0]) || exists e :: e in envs[1..] && Calm(cfg, e)
  {
    assert forall e :: e in envs <==> e == envs[0] || e in envs[1..];
  }

  /** After a pass and any number of ticks that started none, the next starts one exactly
      when it is over the mark and one of three things holds: the pass left a window whose
      debt is owed a capture, the fill has grown past what the pass ended with, or a calm
      tick came in between. */
  lemma StartsAgainIff(cfg: Config, s: State, pass: Reading, envs: seq<Env>, e: Env)
    requires cfg.watermark > 0 && cfg.total > 0 && Silent(cfg, AfterPass(s, pass), envs)
    ensures Kicks(cfg, Run(cfg, AfterPass(s, pass), envs), e.fill) <==>
              && !Calm(cfg, e)
              && (|| (pass.window && (s.owed ==> pass.reclaimed > 0))
                  || e.fill > pass.fill
                  || exists x :: x in envs && Calm(cfg, x))
  {
    SilentRun(cfg, AfterPass(s, pass), envs);
  }

  /** The first tick of a mount starts a pass exactly when the ladder is switched on and an
      earlier mount left its window live or the fill is over the mark; and until one does,
      so does every later tick. */
  lemma MountStartsIff(cfg: Config, live: bool, fill: nat, envs: seq<Env>, e: Env)
    requires Silent(cfg, Seed(cfg, live, fill), envs)
    ensures Kicks(cfg, Run(cfg, Seed(cfg, live, fill), envs), e.fill) <==>
              cfg.watermark > 0 && cfg.total > 0 && (live || !Calm(cfg, e))
  {
    if cfg.watermark > 0 && cfg.total > 0 {
      SilentRun(cfg, Seed(cfg, live, fill), envs);
    }
  }

  function Flag(b: bool): nat { if b then 1 else 0 }

  /** In every run, whatever the volume does: debt-discharge passes plus a debt still
      owed never exceed fresh passes plus passes that reclaimed something plus the debt
      the run started with. */
  lemma {:induction false} DebtIsEarned(cfg: Config, s: State, envs: seq<Env>)
    ensures Count(cfg, s, envs).discharge + Flag(Run(cfg, s, envs).owed)
            <= Count(cfg, s, envs).pressed + Count(cfg, s, envs).reclaiming + Flag(s.owed)
    decreases |envs|
  {
    if envs != [] {
      DebtIsEarned(cfg, Step(cfg, s, envs[0]), envs[1..]);
    }
  }

  /** From a mount: the inherited window is worth exactly one. */
  lemma MountDebtIsEarned(cfg: Config, live: bool, fill: nat, envs: seq<Env>)
    ensures var s := Seed(cfg, live, fill); var t := Count(cfg, s, envs);
            t.discharge + Flag(Run(cfg, s, envs).owed) <= t.pressed + t.reclaiming + Flag(live)
  {
    DebtIsEarned(cfg, Seed(cfg, live, fill), envs);
  }

  // ---- convergence ----

  /** RAW fill, the blocks the last mark set holds that no live file names, and whether a
      save point is live. */
  datatype Volume = Volume(fill: nat, debt: nat, window: bool)

  /** How a pass's save point went: captured, refused before it reclaimed, or captured
      and then found not to have landed. */
  datatype Capture = Captured | CaptureFailed | VerifyFailed

  /** What a pass does to a volume: the capture's fate, the blocks it supersedes, and
      how many RAW blocks its frees give back. */
  datatype Pass = Pass(capture: Capture, superseded: nat, rawFreed: nat)

  /** A capture is the only collector of debt; the old window is dropped first, and the
      pass sweeps unless its own capture did not land. */
  function Sweep(v: Volume, p: Pass): (Volume, nat) {
    var fill := if p.rawFreed <= v.fill then v.fill - p.rawFreed else 0;
    match p.capture
    case Captured => (Volume(fill, p.superseded, true), v.debt)
    case CaptureFailed => (Volume(fill, v.debt, false), 0)
    case VerifyFailed => (Volume(fill, 0, false), v.debt)
  }

  /** What happens to the volume next: a tick of the ladder, with the pass it would run;
      a manual or periodic pass that the ladder does not see; or a writer that raises the
      fill. */
  datatype Event = Tick(pass: Pass) | Manual(pass: Pass) | Grow(blocks: nat)

  predicate Starts(cfg: Config, s: State, v: Volume, e: Event) {
    e.Tick? && Kicks(cfg, s, v.fill)
  }

  function Next(cfg: Config, s: State, v: Volume, e: Event): (State, Volume) {
    if Starts(cfg, s, v, e) then
      var (v', reclaimed) := Sweep(v, e.pass);
      (AfterPass(s, Reading(v'.fill, v'.window, reclaimed)), v')
    else match e
      case Tick(_) => (Idle(cfg, s, v.fill), v)
      case Manual(pass) => (s, Sweep(v, pass).0)
      case Grow(blocks) => (s, v.(fill := v.fill + blocks))
  }

  /** Passes the ladder starts over a sequence of events. */
  function Passes(cfg: Config, s: State, v: Volume, es: seq<Event>): nat
    decreases |es|
  {
    if es == [] then 0 else
      var (s', v') := Next(cfg, s, v, es[0]);
      (if Starts(cfg, s, v, es[0]) then 1 else 0) + Passes(cfg, s', v', es[1..])
  }

  /** A pass is run that supersedes blocks. */
  predicate Noisy(cfg: Config, s: State, v: Volume, e: Event) {
    !e.Grow? && e.pass.superseded > 0 && (e.Manual? || Starts(cfg, s, v, e))
  }

  /** How many times a writer raised the fill. */
  function Rises(es: seq<Event>): nat {
    if es == [] then 0 else Flag(es[0].Grow?) + Rises(es[1..])
  }

  function NoisyPasses(cfg: Config, s: State, v: Volume, es: seq<Event>): nat
    decreases |es|
  {
    if es == [] then 0 else
      var (s', v') := Next(cfg, s, v, es[0]);
      Flag(Noisy(cfg, s, v, es[0])) + NoisyPasses(cfg, s', v', es[1..])
  }

  /** How many passes the ladder can still start if nothing more is superseded. */
  function Rank(cfg: Config, s: State, v: Volume): nat {
    if !Kicks(cfg, s, v.fill) then 0 else if s.owed && v.debt == 0 then 1 else 2
  }

  lemma EventDescends(cfg: Config, s: State, v: Volume, e: Event)
    ensures var (s', v') := Next(cfg, s, v, e);
            Rank(cfg, s', v') + Flag(Starts(cfg, s, v, e))
            <= Rank(cfg, s, v) + 2 * Flag(e.Grow?) + Flag(Noisy(cfg, s, v, e))
  {
  }

  lemma {:induction false} PassesWithinRank(cfg: Config, s: State, v: Volume, es: seq<Event>)
    ensures Passes(cfg, s, v, es) <= Rank(cfg, s, v) + 2 * Rises(es) + NoisyPasses(cfg, s, v, es)
    decreases |es|
  {
    if es != [] {
      EventDescends(cfg, s, v, es[0]);
      var (s', v') := Next(cfg, s, v, es[0]);
      PassesWithinRank(cfg, s', v', es[1..]);
    }
  }

  /** The ladder stops: from any ladder state and any volume, over any number of ticks
      with manual passes and writers anywhere in between, and whatever the captures do, it
      starts at most two passes, two more for every time a writer raised the fill, and one
      more for every pass that superseded anything. */
  lemma LadderConverges(cfg: Config, s: State, v: Volume, es: seq<Event>)
    ensures Passes(cfg, s, v, es) <= 2 + 2 * Rises(es) + NoisyPasses(cfg, s, v, es)
  {
    PassesWithinRank(cfg, s, v, es);
  }

  /** Nothing raises the fill and no pass supersedes anything. */
  predicate Quiet(e: Event) {
    !e.Grow? && e.pass.superseded == 0
  }

  /** Once all is quiet it starts at most two, and at most three if only the first event is
      not. */
  lemma QuietLadderStops(cfg: Config, s: State, v: Volume, es: seq<Event>)
    requires forall i :: 1 <= i < |es| ==> Quiet(es[i])
    ensures Passes(cfg, s, v, es) <= 3
    ensures es != [] && Quiet(es[0]) ==> Passes(cfg, s, v, es) <= 2
  {
    LadderConverges(cfg, s, v, es);
    if es != [] {
      var (s', v') := Next(cfg, s, v, es[0]);
      LadderConverges(cfg, s', v', es[1..]);
      QuietIsSilent(cfg, s', v', es[1..]);
    }
  }

  lemma {:induction false} QuietIsSilent(cfg: Config, s: State, v: Volume, es: seq<Event>)
    requires forall i :: 0 <= i < |es| ==> Quiet(es[i])
    ensures NoisyPasses(cfg, s, v, es) == 0 && Rises(es) == 0
    decreases |es|
  {
    if es != [] {
      var (s', v') := Next(cfg, s, v, es[0]);
      QuietIsSilent(cfg, s', v', es[1..]);
    }
  }

  /** Once a tick starts no pass, no later tick does until a writer raises the fill,
      whatever passes would supersede and however many manual ones run. */
  lemma {:induction false} SilenceLasts(cfg: Config, s: State, v: Volume, es: seq<Event>)
    requires !Kicks(cfg, s, v.fill) && Rises(es) == 0
    ensures Passes(cfg, s, v, es) == 0
    decreases |es|
  {
    if es != [] {
      var (s', v') := Next(cfg, s, v, es[0]);
      assert !Kicks(cfg, s', v'.fill);
      SilenceLasts(cfg, s', v', es[1..]);
    }
  }

  /** Both bounds are reached. */
  lemma BoundsAreReached()
    ensures Passes(Config(100, 50), State(0, false, false), Volume(90, 0, false), Ticks([0, 0, 0])) == 2
    ensures Passes(Config(100, 50), State(0, false, false), Volume(90, 0, false), Ticks([5, 0, 0, 0])) == 3
  {
    var cfg, v := Config(100, 50), Volume(90, 0, true);
    TicksFlat([0]);
    SilenceLasts(cfg, State(90, false, false), v, Ticks([0]));
    assert [5, 0, 0, 0][1..] == [0, 0, 0] && [0, 0, 0][1..] == [0, 0] && [0, 0][1..] == [0];
    TicksCons(5, [0, 0, 0]);
    TicksCons(0, [0, 0]);
    TicksCons(0, [0]);
  }

  /** Ticks whose passes capture and supersede the given numbers of blocks. */
  function Ticks(superseded: seq<nat>): seq<Event> {
    seq(|superseded|, i requires 0 <= i < |superseded| => Tick(Pass(Captured, superseded[i], 0)))
  }

  lemma {:induction false} TicksFlat(superseded: seq<nat>)
    ensures Rises(Ticks(superseded)) == 0
    decreases |superseded|
  {
    if superseded != [] {
      TicksCons(superseded[0], superseded[1..]);
      assert superseded == [superseded[0]] + superseded[1..];
      TicksFlat(superseded[1..]);
    }
  }

  /** And a rise is worth two more. */
  lemma RiseIsWorthTwo()
    ensures Passes(Config(100, 50), State(0, false, false), Volume(90, 0, false),
                   Ticks([0, 0]) + [Grow(1)] + Ticks([0, 0])) == 4
  {
    var t := Tick(Pass(Captured, 0, 0));
    assert Ticks([0, 0]) == [t, t];
    var es := [t, t, Grow(1), t, t];
    assert Ticks([0, 0]) + [Grow(1)] + Ticks([0, 0]) == es;
    assert es[1..] == [t, Grow(1), t, t] && es[2..] == [Grow(1), t, t] && es[3..] == [t, t] && es[4..] == [t];
    var cfg := Config(100, 50);
    assert Passes(cfg, State(91, true, false), Volume(91, 0, true), [t]) == 1;
    assert Passes(cfg, State(90, false, false), Volume(91, 0, true), [t, t]) == 2 by { assert [t, t][1..] == [t]; }
    assert Passes(cfg, State(90, false, false), Volume(90, 0, true), [Grow(1), t, t]) == 2 by {
      assert [Grow(1), t, t][1..] == [t, t];
    }
    assert Passes(cfg, State(90, true, false), Volume(90, 0, true), [t, Grow(1), t, t]) == 3 by {
      assert [t, Grow(1), t, t][1..] == [Grow(1), t, t];
    }
  }

  lemma TicksCons(x: nat, rest: seq<nat>)
    ensures Ticks([x] + rest) == [Tick(Pass(Captured, x, 0))] + Ticks(rest)
  {
  }

  // ---- what the stops mean ----

  /** The debt a fresh captured pass creates is collected by the very next tick while
      the fill is over the mark: the ladder does not deadlock on its own hold. */
  lemma FreshDebtIsCollected(cfg: Config, s: State, v: Volume, p: Pass, q: Pass)
    requires Kicks(cfg, s, v.fill) && !s.owed && p.capture == Captured && q.capture != CaptureFailed
    ensures var (s1, v1) := Next(cfg, s, v, Tick(p));
            Over(cfg, v1.fill) ==> Kicks(cfg, s1, v1.fill) && Sweep(v1, q).1 == p.superseded
  {
  }

  /** When a captured pass leaves debt that the ladder does not owe a capture for:
      exactly when a discharge pass reclaimed nothing and yet superseded something. The
      empty reclaim speaks of the previous window, not of the one the pass armed. */
  lemma DebtLeftIff(cfg: Config, s: State, v: Volume, p: Pass)
    requires Kicks(cfg, s, v.fill) && p.capture == Captured
    ensures var (s', v') := Next(cfg, s, v, Tick(p));
            (v'.debt > 0 && !s'.owed) <==> (s.owed && v.debt == 0 && p.superseded > 0)
  {
  }

  /** Such debt never makes the ladder start another pass, however long it ticks, even
      with the volume over its mark, until a writer raises the fill. */
  lemma DebtLeftStays(cfg: Config, s: State, v: Volume, p: Pass, es: seq<Event>)
    requires Kicks(cfg, s, v.fill) && p.capture == Captured && s.owed && v.debt == 0 && p.superseded > 0
    requires Rises(es) == 0
    ensures var (s', v') := Next(cfg, s, v, Tick(p)); Passes(cfg, s', v', es) == 0
  {
    var (s', v') := Next(cfg, s, v, Tick(p));
    SilenceLasts(cfg, s', v', es);
  }
}
