/** The duty-cycle limiter of USRPChannel in worker/channel.py: a pruned list of the
    recorded bursts, consulted before a burst and extended after it. Times and
    durations are exact; the clock does not run backwards. */
module DutyCycle {
  /** A burst as the worker lives through it: the limiter admits it at `checked`, it is
      recorded at `recorded`, and in between it occupies the air for `duration`. */
  datatype Burst = Burst(checked: real, recorded: real, duration: real)

  /** DUTY_CYCLE_MAX_PERCENT and DUTY_CYCLE_WINDOW_SEC, fixed during a run. */
  datatype Settings = Settings(maxPercent: real, window: real)

  /** The budget: maxPercent of a hundred parts of the window. */
  function MaxAllowed(cfg: Settings): real { cfg.maxPercent / 100.0 * cfg.window }

  lemma Budget(cfg: Settings)
    ensures 100.0 * MaxAllowed(cfg) == cfg.maxPercent * cfg.window
  {}

  /** Total duration of the bursts recorded after `cutoff`. */
  function AirtimeSince(bs: seq<Burst>, cutoff: real): real {
    if bs == [] then 0.0
    else
      var b := bs[|bs| - 1];
      AirtimeSince(bs[..|bs| - 1], cutoff) + if b.recorded > cutoff then b.duration else 0.0
  }

  function Pruned(bs: seq<Burst>, cutoff: real): (r: seq<Burst>)
    ensures |r| <= |bs|
  {
    if bs == [] then []
    else
      var b := bs[|bs| - 1];
      Pruned(bs[..|bs| - 1], cutoff) + if b.recorded > cutoff then [b] else []
  }

  function Total(bs: seq<Burst>): real {
    if bs == [] then 0.0 else Total(bs[..|bs| - 1]) + bs[|bs| - 1].duration
  }

  lemma PrunedSnoc(bs: seq<Burst>, b: Burst, cutoff: real)
    ensures Pruned(bs + [b], cutoff) == Pruned(bs, cutoff) + if b.recorded > cutoff then [b] else []
  {
    assert (bs + [b])[..|bs|] == bs;
  }

  lemma TotalSnoc(bs: seq<Burst>, b: Burst)
    ensures Total(bs + [b]) == Total(bs) + b.duration
  {
    assert (bs + [b])[..|bs|] == bs;
  }

  lemma {:induction false} PrunedTotal(bs: seq<Burst>, cutoff: real)
    ensures Total(Pruned(bs, cutoff)) == AirtimeSince(bs, cutoff)
  {
    if bs != [] {
      var m := |bs| - 1;
      PrunedTotal(bs[..m], cutoff);
      TotalSnoc(Pruned(bs[..m], cutoff), bs[m]);
      assert Pruned(bs[..m], cutoff) + [] == Pruned(bs[..m], cutoff);
    }
  }

  /** What was pruned with an earlier cutoff would be pruned now as well. */
  lemma {:induction false} PruneAgain(bs: seq<Burst>, earlier: real, cutoff: real)
    requires earlier <= cutoff
    ensures Pruned(Pruned(bs, earlier), cutoff) == Pruned(bs, cutoff)
  {
    if bs != [] {
      var m := |bs| - 1;
      PruneAgain(bs[..m], earlier, cutoff);
      PrunedSnoc(Pruned(bs[..m], earlier), bs[m], cutoff);
      assert Pruned(bs[..m], earlier) + [] == Pruned(bs[..m], earlier);
      assert Pruned(bs[..m], cutoff) + [] == Pruned(bs[..m], cutoff);
    }
  }

  lemma {:induction false} NothingSince(bs: seq<Burst>, cutoff: real)
    requires forall i :: 0 <= i < |bs| ==> bs[i].recorded <= cutoff
    ensures AirtimeSince(bs, cutoff) == 0.0
  {
    if bs != [] { NothingSince(bs[..|bs| - 1], cutoff); }
  }

  // ----- What was on the air and what was recorded of it ------------------------------------

  /** A transmission; `kept` tells whether its capture arrived, so that it was recorded. An
      attempt that failed after its burst ends at `recorded` all the same. */
  datatype Transmission = Transmission(burst: Burst, kept: bool)

  function Bursts(ts: seq<Transmission>): (r: seq<Burst>)
    ensures |r| == |ts|
  {
    seq(|ts|, i requires 0 <= i < |ts| => ts[i].burst)
  }

  /** The bursts that were recorded, or those that were not. */
  function Selected(ts: seq<Transmission>, kept: bool): (r: seq<Burst>)
    ensures |r| <= |ts|
  {
    if ts == [] then []
    else
      var t := ts[|ts| - 1];
      Selected(ts[..|ts| - 1], kept) + if t.kept == kept then [t.burst] else []
  }

  lemma SelectedSnoc(ts: seq<Transmission>, t: Transmission, kept: bool)
    ensures Selected(ts + [t], kept) == Selected(ts, kept) + if t.kept == kept then [t.burst] else []
    ensures Bursts(ts + [t]) == Bursts(ts) + [t.burst]
  {
    assert (ts + [t])[..|ts|] == ts;
  }

  /** Airtime is what was recorded and what was not. */
  lemma {:induction false} AirtimeSplits(ts: seq<Transmission>, cutoff: real)
    ensures AirtimeSince(Bursts(ts), cutoff) ==
      AirtimeSince(Selected(ts, true), cutoff) + AirtimeSince(Selected(ts, false), cutoff)
  {
    if ts != [] {
      var front, t := ts[..|ts| - 1], ts[|ts| - 1];
      assert ts == front + [t];
      AirtimeSplits(front, cutoff);
      SelectedSnoc(front, t, true);
      SelectedSnoc(front, t, false);
      AirtimeSnoc(Bursts(front), t.burst, cutoff);
      AirtimeSnoc(Selected(front, t.kept), t.burst, cutoff);
      assert Selected(front, !t.kept) + [] == Selected(front, !t.kept);
    }
  }

  lemma AirtimeSnoc(bs: seq<Burst>, b: Burst, cutoff: real)
    ensures AirtimeSince(bs + [b], cutoff) == AirtimeSince(bs, cutoff) + if b.recorded > cutoff then b.duration else 0.0
  {
    assert (bs + [b])[..|bs|] == bs;
  }

  // ----- The limiter --------------------------------------------------------------------

  datatype Decision = TooLong | Admitted | Wait(seconds: real)

  /** The decision by the complete, never pruned history. */
  function Decide(all: seq<Burst>, now: real, duration: real, cfg: Settings): Decision {
    var available := MaxAllowed(cfg) - AirtimeSince(all, now - cfg.window);
    if duration > MaxAllowed(cfg) then TooLong
    else if duration > available then Wait(duration - available + 1.0)
    else Admitted
  }

  /** One worker, one burst after the other: each is checked after the previous one was
      recorded, on a clock that does not run backwards. */
  ghost predicate InSequence(bs: seq<Burst>) {
    && (forall i :: 0 <= i < |bs| ==> bs[i].checked <= bs[i].recorded && bs[i].duration >= 0.0)
    && (forall i, j :: 0 <= i < j < |bs| ==> bs[i].recorded <= bs[j].checked)
  }

  /** Every burst was admitted against the history before it. */
  ghost predicate AllAdmitted(bs: seq<Burst>, cfg: Settings) {
    forall i :: 0 <= i < |bs| ==> Decide(bs[..i], bs[i].checked, bs[i].duration, cfg) == Admitted
  }

  /** time.sleep: at least the requested time passes. */
  method Sleep(now: real, seconds: real) returns (wake: real)
    ensures wake >= now + seconds
  {
    var longer: real := *;
    wake := now + seconds + if longer > 0.0 then longer else 0.0;
  }

  class Limiter {
    const cfg: Settings
    var history: seq<Burst>   // _tx_history
    ghost var all: seq<Burst>
    ghost var onAir: seq<Transmission>   // all of them, recorded or not
    ghost var clock: real
    ghost var pruned: real

    /** The list agrees with the complete history on everything after the last cutoff. */
    ghost predicate Valid()
      reads this
    {
      && InSequence(all) && AllAdmitted(all, cfg)
      && (forall i :: 0 <= i < |all| ==> all[i].recorded <= clock)
      && AirValid(onAir, all, clock)
      && pruned <= clock - cfg.window
      && (forall c :: c >= pruned ==> Pruned(history, c) == Pruned(all, c))
    }

    constructor (cfg: Settings, now: real)
      ensures Valid() && all == [] && onAir == [] && clock == now && this.cfg == cfg
    {
      this.cfg := cfg;
      history, all, onAir, clock, pruned := [], [], [], now, now - cfg.window;
    }

    /** _check_duty_cycle at time `now`: decides, from the pruned list alone, exactly as
        if nothing had ever been pruned. */
    method Check(now: real, duration: real) returns (d: Decision)
      requires Valid() && now >= clock
      modifies this
      ensures Valid() && all == old(all) && onAir == old(onAir) && clock == now
      ensures d == Decide(all, now, duration, cfg)
      ensures d.TooLong? <==> 100.0 * duration > cfg.maxPercent * cfg.window
      ensures d.Wait? ==>
        100.0 * (d.seconds - 1.0) ==
          100.0 * (AirtimeSince(all, now - cfg.window) + duration) - cfg.maxPercent * cfg.window
      ensures d.Admitted? <==>
        && 100.0 * duration <= cfg.maxPercent * cfg.window
        && 100.0 * (AirtimeSince(all, now - cfg.window) + duration) <= cfg.maxPercent * cfg.window
    {
      Budget(cfg);
      hide MaxAllowed, Pruned, Total, AirtimeSince, AirValid;
      AirLater(onAir, all, clock, now);
      var maxAllowed := MaxAllowed(cfg);
      clock := now;
      if duration > maxAllowed { return TooLong; }
      var cutoff := now - cfg.window;
      PrunedTotal(history, cutoff);
      PrunedTotal(all, cutoff);
      ghost var before := history;
      history := Pruned(history, cutoff);
      pruned := cutoff;
      forall c | c >= cutoff ensures Pruned(history, c) == Pruned(all, c) {
        PruneAgain(before, cutoff, c);
      }
      var available := maxAllowed - Total(history);
      if duration > available { return Wait(duration - available + 1.0); }
      return Admitted;
    }

    /** Appends the burst once its capture has arrived. */
    method Record(b: Burst)
      requires Valid() && b.duration >= 0.0 && b.checked <= clock <= b.recorded
      requires forall i :: 0 <= i < |onAir| ==> onAir[i].burst.recorded <= b.checked
      requires forall i :: 0 <= i < |all| ==> all[i].recorded <= b.checked
      requires Decide(all, b.checked, b.duration, cfg) == Admitted
      modifies this
      ensures Valid() && all == old(all) + [b] && onAir == old(onAir) + [Transmission(b, true)] && clock == b.recorded
    {
      hide MaxAllowed, Decide, Pruned, AirValid;
      AirGrows(onAir, all, clock, Transmission(b, true));
      forall c | c >= pruned ensures Pruned(history + [b], c) == Pruned(all + [b], c) {
        PrunedSnoc(history, b, c);
        PrunedSnoc(all, b, c);
      }
      forall i | 0 <= i <= |all|
        ensures Decide((all + [b])[..i], (all + [b])[i].checked, (all + [b])[i].duration, cfg) == Admitted
      {
        assert (all + [b])[..i] == all[..i];
        assert all[..|all|] == all;
      }
      history := history + [b];
      all := all + [b];
      onAir := onAir + [Transmission(b, true)];
      clock := b.recorded;
    }

    /** A burst whose capture fails: on the air, and nowhere else. */
    method Lose(b: Burst)
      requires Valid() && b.duration >= 0.0 && b.checked <= clock <= b.recorded
      requires forall i :: 0 <= i < |onAir| ==> onAir[i].burst.recorded <= b.checked
      modifies this
      ensures Valid() && all == old(all) && onAir == old(onAir) + [Transmission(b, false)] && clock == b.recorded
    {
      hide MaxAllowed, Decide, Pruned, AirValid;
      AirGrows(onAir, all, clock, Transmission(b, false));
      onAir := onAir + [Transmission(b, false)];
      clock := b.recorded;
    }

    /** The waiting loop of send_and_receive. A burst that fits the whole budget is
        admitted after at most ceil(window) refusals, whatever the history. */
    method WaitUntilAdmitted(now0: real, duration: real) returns (ok: bool, now: real, refusals: nat)
      requires Valid() && now0 >= clock
      modifies this
      ensures Valid() && all == old(all) && onAir == old(onAir) && clock == now >= now0
      ensures ok <==> duration <= MaxAllowed(cfg)
      ensures ok <==> 100.0 * duration <= cfg.maxPercent * cfg.window
      ensures ok ==> Decide(all, now, duration, cfg) == Admitted
      ensures ok ==> 100.0 * (AirtimeSince(all, now - cfg.window) + duration) <= cfg.maxPercent * cfg.window
      ensures refusals == 0 || (refusals - 1) as real < cfg.window
      ensures refusals == 0 <==> now == now0
    {
      now, refusals := now0, 0;
      while true
        invariant Valid() && all == old(all) && onAir == old(onAir) && clock <= now
        invariant refusals > 0 ==> duration <= MaxAllowed(cfg)
        invariant now0 + refusals as real <= now && (refusals == 0 ==> now == now0)
        invariant refusals == 0 || (refusals - 1) as real < cfg.window
        invariant forall i :: 0 <= i < |all| ==> all[i].recorded <= now0
        decreases now0 + cfg.window - now
      {
        var d := Check(now, duration);
        if d.TooLong? { return false, now, refusals; }
        if d.Admitted? { return true, now, refusals; }
        if now - cfg.window >= now0 {
          NothingSince(all, now - cfg.window);
          assert false;
        }
        now := Sleep(now, d.seconds);
        refusals := refusals + 1;
      }
    }

    /** send_and_receive under _with_rf_retry, as the limiter sees it: every attempt waits
        for its admission, and goes on the air unless it fails before; all of its bursts
        but that of a success are lost. `fate` says how each attempt ends. */
    method SendWithRetry(now0: real, duration: real, attempts: nat, fate: nat -> Fate)
      returns (ok: bool, now: real, tries: nat, ghost sent: seq<Transmission>)
      requires Valid() && now0 >= clock && duration >= 0.0 && attempts >= 1
      modifies this
      ensures Valid() && clock == now >= now0 && 1 <= tries <= attempts
      ensures onAir == old(onAir) + sent
      ensures now - now0 >= 0.5 * (tries - 1) as real
      ensures 100.0 * duration > cfg.maxPercent * cfg.window ==> !ok && sent == [] && tries == 1
      ensures 100.0 * duration <= cfg.maxPercent * cfg.window ==> ok == fate(tries - 1).Captured?
      ensures 100.0 * duration <= cfg.maxPercent * cfg.window ==>
        && (forall i: nat :: i < tries - 1 ==> !fate(i).Captured? && fate(i).transient)
        && (!ok && fate(tries - 1).transient ==> tries == attempts)
        && |sent| == Airborne(fate, tries)
      ensures 100.0 * duration <= cfg.maxPercent * cfg.window && !fate(tries - 1).Failed? ==>
        sent != [] && sent[|sent| - 1].burst.recorded == now
      ensures forall i :: 0 <= i < |sent| ==>
        sent[i].burst.duration == duration && (sent[i].kept <==> ok && i == |sent| - 1)
    {
      hide MaxAllowed, Decide, InSequence, AllAdmitted, AirValid, Pruned, Valid;
      now, tries, sent, ok := now0, 0, [], false;
      while tries < attempts
        invariant Valid() && clock <= now && now >= now0 && tries < attempts && !ok
        invariant onAir == old(onAir) + sent
        invariant now - now0 >= 0.5 * tries as real
        invariant tries > 0 ==> duration <= MaxAllowed(cfg)
        invariant forall i: nat :: i < tries ==> !fate(i).Captured? && fate(i).transient
        invariant |sent| == Airborne(fate, tries)
        invariant forall i :: 0 <= i < |sent| ==> sent[i].burst.duration == duration && !sent[i].kept
      {
        var admitted, refusals;
        admitted, now, refusals := WaitUntilAdmitted(now, duration);
        var end := Sleep(now, 0.0);
        tries := tries + 1;
        if !admitted { return false, now, tries, sent; }
        var b := Burst(now, end, duration);
        EndedBefore();
        match fate(tries - 1) {
          case Captured =>
            Record(b);
            return true, end, tries, sent + [Transmission(b, true)];
          case Lost(_) =>
            Lose(b);
            sent, now := sent + [Transmission(b, false)], end;
          case Failed(_) =>
        }
        if !fate(tries - 1).transient || tries == attempts { return false, now, tries, sent; }
        now := Sleep(now, BACKOFF);
      }
    }

    /** So it is for what this limiter has recorded, and for what it let on the air. */
    lemma HistoryBounded(x: seq<real>, from: real)
      requires Valid() && Instants(all, x)
      ensures var w := WindowAirtime(all, x, from, from + cfg.window);
        w == 0.0 || 100.0 * w <= cfg.maxPercent * cfg.window
    {
      hide WindowAirtime, InSequence, AllAdmitted, Instants, AirValid, Pruned;
      EveryWindowBounded(all, x, from, cfg);
    }

    lemma AirBounded(x: seq<real>, from: real)
      requires Valid() && Instants(Bursts(onAir), x)
      ensures var to := from + cfg.window;
        var lost := WindowAirtime(Selected(onAir, false), SelectedTimes(onAir, x, false), from, to);
        var w := WindowAirtime(Bursts(onAir), x, from, to);
        w == lost || 100.0 * (w - lost) <= cfg.maxPercent * cfg.window
    {
      assert Selected(onAir, true) == all && InSequence(Bursts(onAir));
      hide *;
      assert AllAdmitted(Selected(onAir, true), cfg) by { ValidAdmits(); }
      EveryWindowWithLost(onAir, x, from, cfg);
    }

    lemma ValidAdmits()
      requires Valid()
      ensures AllAdmitted(all, cfg)
    {
      hide AllAdmitted, InSequence, AirValid, Pruned;
    }

    lemma EndedBefore()
      requires Valid()
      ensures forall i :: 0 <= i < |all| ==> all[i].recorded <= clock
      ensures forall i :: 0 <= i < |onAir| ==> onAir[i].burst.recorded <= clock
    {}
  }

  const BACKOFF := 0.5

  /** How an attempt ends: captured, with its burst sent but no capture, or before it. */
  datatype Fate = Captured | Lost(transient: bool) | Failed(transient: bool)

  /** How many of the first n attempts went on the air. */
  function Airborne(fate: nat -> Fate, n: nat): nat {
    if n == 0 then 0 else Airborne(fate, n - 1) + if fate(n - 1).Failed? then 0 else 1
  }

  /** The history of transmissions beside that of the recorded ones. */
  ghost predicate AirValid(onAir: seq<Transmission>, all: seq<Burst>, clock: real) {
    && Selected(onAir, true) == all && InSequence(Bursts(onAir))
    && forall i :: 0 <= i < |onAir| ==> onAir[i].burst.recorded <= clock
  }

  lemma AirLater(onAir: seq<Transmission>, all: seq<Burst>, clock: real, now: real)
    requires AirValid(onAir, all, clock) && clock <= now
    ensures AirValid(onAir, all, now)
  {}

  lemma AirGrows(onAir: seq<Transmission>, all: seq<Burst>, clock: real, t: Transmission)
    requires AirValid(onAir, all, clock)
    requires t.burst.checked <= clock <= t.burst.recorded && t.burst.duration >= 0.0
    requires forall i :: 0 <= i < |onAir| ==> onAir[i].burst.recorded <= t.burst.checked
    ensures AirValid(onAir + [t], if t.kept then all + [t.burst] else all, t.burst.recorded)
  {
    SelectedSnoc(onAir, t, true);
    assert all + [] == all;
    forall i | 0 <= i < |onAir| ensures Bursts(onAir)[i] == onAir[i].burst {}
  }

  // ----- The limit over every window ------------------------------------------------------

  /** Total duration of the bursts whose instant x[i] lies in the window (from, to]. */
  function WindowAirtime(bs: seq<Burst>, x: seq<real>, from: real, to: real): real
    requires |bs| == |x|
  {
    if bs == [] then 0.0
    else
      var m := |bs| - 1;
      WindowAirtime(bs[..m], x[..m], from, to) + if from < x[m] <= to then bs[m].duration else 0.0
  }

  /** x[i] is some instant between the check and the recording of burst i. */
  ghost predicate Instants(bs: seq<Burst>, x: seq<real>) {
    |bs| == |x| && forall i :: 0 <= i < |bs| ==> bs[i].checked <= x[i] <= bs[i].recorded
  }

  lemma {:induction false} WindowSeen(bs: seq<Burst>, x: seq<real>, from: real, to: real, cutoff: real)
    requires Instants(bs, x) && cutoff <= from
    requires forall i :: 0 <= i < |bs| ==> bs[i].duration >= 0.0
    ensures WindowAirtime(bs, x, from, to) <= AirtimeSince(bs, cutoff)
  {
    if bs != [] {
      var m := |bs| - 1;
      WindowSeen(bs[..m], x[..m], from, to, cutoff);
    }
  }

  lemma {:induction false} WindowBounded(bs: seq<Burst>, x: seq<real>, from: real, cfg: Settings)
    requires InSequence(bs) && AllAdmitted(bs, cfg) && Instants(bs, x)
    ensures var w := WindowAirtime(bs, x, from, from + cfg.window);
      w == 0.0 || w <= MaxAllowed(cfg)
    decreases |bs|
  {
    hide MaxAllowed, Decide;
    if bs != [] {
      var m := |bs| - 1;
      PrefixAdmitted(bs, m, cfg);
      WindowBounded(bs[..m], x[..m], from, cfg);
      if from < x[m] <= from + cfg.window {
        WindowSeen(bs[..m], x[..m], from, from + cfg.window, bs[m].checked - cfg.window);
        AdmittedFits(bs[..m], bs[m], cfg);
      }
    }
  }

  /** In every window of the configured length, the bursts of a complete history add up
      to no more than the allowed airtime, wherever between its check and its
      recording each of them is placed. */
  lemma EveryWindowBounded(bs: seq<Burst>, x: seq<real>, from: real, cfg: Settings)
    requires InSequence(bs) && AllAdmitted(bs, cfg) && Instants(bs, x)
    ensures var w := WindowAirtime(bs, x, from, from + cfg.window);
      w == 0.0 || 100.0 * w <= cfg.maxPercent * cfg.window
  {
    Budget(cfg);
    WindowBounded(bs, x, from, cfg);
    hide MaxAllowed, WindowAirtime;
  }

  lemma PrefixAdmitted(bs: seq<Burst>, m: nat, cfg: Settings)
    requires m <= |bs| && AllAdmitted(bs, cfg) && InSequence(bs)
    ensures AllAdmitted(bs[..m], cfg) && InSequence(bs[..m])
  {
    hide Decide;
    forall i | 0 <= i < m ensures Decide(bs[..m][..i], bs[..m][i].checked, bs[..m][i].duration, cfg) == Admitted {
      assert bs[..m][..i] == bs[..i];
    }
  }

  lemma AdmittedFits(bs: seq<Burst>, b: Burst, cfg: Settings)
    requires Decide(bs, b.checked, b.duration, cfg) == Admitted
    ensures AirtimeSince(bs, b.checked - cfg.window) + b.duration <= MaxAllowed(cfg)
  {}

  /** Total duration of the bursts whose transmission [start, start + duration] meets the
      window (from, to]. */
  function OverlapAirtime(bs: seq<Burst>, start: seq<real>, from: real, to: real): real
    requires |bs| == |start|
  {
    if bs == [] then 0.0
    else
      var m := |bs| - 1;
      OverlapAirtime(bs[..m], start[..m], from, to)
      + if start[m] <= to && start[m] + bs[m].duration > from then bs[m].duration else 0.0
  }

  /** An instant of the transmission: one inside the window, where there is one. */
  function Placed(b: Burst, start: real, from: real, to: real): real {
    if start > from || start + b.duration <= from then start
    else if start + b.duration <= to then start + b.duration
    else to
  }

  /** So the limit holds for the time on the air: transmissions that only partly fall
      into a window are counted in full, and still the sum stays within the limit. */
  lemma AirtimeBounded(bs: seq<Burst>, start: seq<real>, from: real, cfg: Settings)
    requires InSequence(bs) && AllAdmitted(bs, cfg) && |bs| == |start| && cfg.window > 0.0
    requires forall i :: 0 <= i < |bs| ==>
      bs[i].checked <= start[i] && start[i] + bs[i].duration <= bs[i].recorded
    ensures var w := OverlapAirtime(bs, start, from, from + cfg.window);
      w == 0.0 || 100.0 * w <= cfg.maxPercent * cfg.window
  {
    hide MaxAllowed, Decide, OverlapAirtime, WindowAirtime;
    var to := from + cfg.window;
    // a transmission that begins before the window and ends after it has all of it inside
    var x := seq(|bs|, i requires 0 <= i < |bs| => Placed(bs[i], start[i], from, to));
    assert forall i :: 0 <= i < |bs| ==> bs[i].checked <= x[i] <= bs[i].recorded;
    EveryWindowBounded(bs, x, from, cfg);
    SameWindow(bs, start, x, from, to);
  }

  lemma {:induction false} SameWindow(bs: seq<Burst>, start: seq<real>, x: seq<real>, from: real, to: real)
    requires |bs| == |start| == |x| && from < to
    requires forall i :: 0 <= i < |bs| ==> bs[i].duration >= 0.0
    requires forall i :: 0 <= i < |bs| ==> x[i] == Placed(bs[i], start[i], from, to)
    ensures OverlapAirtime(bs, start, from, to) == WindowAirtime(bs, x, from, to)
  {
    if bs != [] {
      var m := |bs| - 1;
      SameWindow(bs[..m], start[..m], x[..m], from, to);
    }
  }

  // ----- With transmissions that were not recorded ----------------------------------------

  /** The instants of the bursts that were recorded, or of those that were not. */
  function SelectedTimes(ts: seq<Transmission>, x: seq<real>, kept: bool): (r: seq<real>)
    requires |ts| == |x|
    ensures |r| == |Selected(ts, kept)|
  {
    if ts == [] then []
    else
      var m := |ts| - 1;
      SelectedTimes(ts[..m], x[..m], kept) + if ts[m].kept == kept then [x[m]] else []
  }

  lemma WindowSnoc(bs: seq<Burst>, x: seq<real>, b: Burst, t: real, from: real, to: real)
    requires |bs| == |x|
    ensures WindowAirtime(bs + [b], x + [t], from, to) ==
      WindowAirtime(bs, x, from, to) + if from < t <= to then b.duration else 0.0
  {
    assert (bs + [b])[..|bs|] == bs && (x + [t])[..|x|] == x;
  }

  lemma {:induction false} WindowSplits(ts: seq<Transmission>, x: seq<real>, from: real, to: real)
    requires |ts| == |x|
    ensures WindowAirtime(Bursts(ts), x, from, to) ==
      WindowAirtime(Selected(ts, true), SelectedTimes(ts, x, true), from, to)
      + WindowAirtime(Selected(ts, false), SelectedTimes(ts, x, false), from, to)
  {
    if ts != [] {
      var m := |ts| - 1;
      var front, t, before := ts[..m], ts[m], x[..m];
      assert ts == front + [t] && x == before + [x[m]];
      WindowSplits(front, before, from, to);
      SelectedSnoc(front, t, true);
      SelectedSnoc(front, t, false);
      WindowSnoc(Bursts(front), before, t.burst, x[m], from, to);
      WindowSnoc(Selected(front, t.kept), SelectedTimes(front, before, t.kept), t.burst, x[m], from, to);
      assert Selected(front, !t.kept) + [] == Selected(front, !t.kept);
      assert SelectedTimes(front, before, !t.kept) + [] == SelectedTimes(front, before, !t.kept);
    }
  }

  lemma {:induction false} SelectedWithin(ts: seq<Transmission>, kept: bool)
    ensures forall b :: b in Selected(ts, kept) ==> exists i :: 0 <= i < |ts| && ts[i].burst == b
  {
    if ts != [] {
      var m := |ts| - 1;
      SelectedWithin(ts[..m], kept);
      forall b | b in Selected(ts, kept) ensures exists i :: 0 <= i < |ts| && ts[i].burst == b {
        if b in Selected(ts[..m], kept) {
          var i :| 0 <= i < m && ts[..m][i].burst == b;
          assert ts[i].burst == b;
        } else {
          assert ts[m].burst == b;
        }
      }
    }
  }

  lemma SequenceSnoc(bs: seq<Burst>, x: seq<real>, b: Burst, t: real)
    requires InSequence(bs) && Instants(bs, x) && b.checked <= t <= b.recorded && b.duration >= 0.0
    requires forall c :: c in bs ==> c.recorded <= b.checked
    ensures InSequence(bs + [b]) && Instants(bs + [b], x + [t])
  {}

  lemma {:induction false} SelectedInSequence(ts: seq<Transmission>, x: seq<real>, kept: bool)
    requires InSequence(Bursts(ts)) && Instants(Bursts(ts), x)
    ensures InSequence(Selected(ts, kept)) && Instants(Selected(ts, kept), SelectedTimes(ts, x, kept))
  {
    if ts != [] {
      var m := |ts| - 1;
      var front, before, b := ts[..m], x[..m], ts[m].burst;
      var bs := Bursts(ts);
      assert Bursts(front) == bs[..m] && bs[m] == b;
      assert InSequence(bs[..m]) && Instants(bs[..m], before);
      SelectedInSequence(front, before, kept);
      SelectedWithin(front, kept);
      forall c | c in Selected(front, kept) ensures c.recorded <= b.checked {
        var i :| 0 <= i < m && front[i].burst == c;
        assert bs[i] == c;
      }
      hide InSequence, Bursts;
      if ts[m].kept == kept {
        SequenceSnoc(Selected(front, kept), SelectedTimes(front, before, kept), b, x[m]);
      } else {
        assert Selected(front, kept) + [] == Selected(front, kept);
        assert SelectedTimes(front, before, kept) + [] == SelectedTimes(front, before, kept);
      }
    }
  }

  /** Every window of everything that was on the air holds at most the allowed airtime and
      what was not recorded of it; so it meets the limit wherever nothing was lost. */
  lemma EveryWindowWithLost(ts: seq<Transmission>, x: seq<real>, from: real, cfg: Settings)
    requires InSequence(Bursts(ts)) && AllAdmitted(Selected(ts, true), cfg) && Instants(Bursts(ts), x)
    ensures var to := from + cfg.window;
      var lost := WindowAirtime(Selected(ts, false), SelectedTimes(ts, x, false), from, to);
      var w := WindowAirtime(Bursts(ts), x, from, to);
      w == lost || 100.0 * (w - lost) <= cfg.maxPercent * cfg.window
  {
    assert |ts| == |x|;
    hide *;
    SelectedInSequence(ts, x, true);
    WindowSplits(ts, x, from, from + cfg.window);
    EveryWindowBounded(Selected(ts, true), SelectedTimes(ts, x, true), from, cfg);
  }

  lemma {:induction false} RecordedWindow(bs: seq<Burst>, x: seq<real>, from: real, to: real)
    requires |bs| == |x| && forall i :: 0 <= i < |bs| ==> x[i] == bs[i].recorded <= to
    ensures WindowAirtime(bs, x, from, to) == AirtimeSince(bs, from)
  {
    if bs != [] {
      var m := |bs| - 1;
      RecordedWindow(bs[..m], x[..m], from, to);
    }
  }

  /** Recorded airtime by itself never exceeds the limit. */
  lemma RecordedWithinLimit(bs: seq<Burst>, now: real, cfg: Settings)
    requires InSequence(bs) && AllAdmitted(bs, cfg) && MaxAllowed(cfg) >= 0.0
    requires forall i :: 0 <= i < |bs| ==> bs[i].recorded <= now
    ensures AirtimeSince(bs, now - cfg.window) <= MaxAllowed(cfg)
  {
    var x := seq(|bs|, i requires 0 <= i < |bs| => bs[i].recorded);
    assert Instants(bs, x);
    hide MaxAllowed, AirtimeSince, WindowAirtime, InSequence, AllAdmitted;
    WindowBounded(bs, x, now - cfg.window, cfg);
    RecordedWindow(bs, x, now - cfg.window, now);
  }

  lemma {:induction false} AirtimeNotNegative(bs: seq<Burst>, cutoff: real)
    requires forall i :: 0 <= i < |bs| ==> bs[i].duration >= 0.0
    ensures AirtimeSince(bs, cutoff) >= 0.0
  {
    if bs != [] { AirtimeNotNegative(bs[..|bs| - 1], cutoff); }
  }

  /** At any moment, the limiter would admit a burst that takes the last window over the
      limit exactly if there is airtime in that window that it has no record of. */
  lemma ExceededIffLost(ts: seq<Transmission>, now: real, cfg: Settings)
    requires InSequence(Bursts(ts)) && AllAdmitted(Selected(ts, true), cfg) && MaxAllowed(cfg) >= 0.0
    requires forall i :: 0 <= i < |ts| ==> ts[i].burst.recorded <= now
    ensures
      (exists d: real :: && d >= 0.0 && Decide(Selected(ts, true), now, d, cfg) == Admitted
                         && 100.0 * (AirtimeSince(Bursts(ts), now - cfg.window) + d) > cfg.maxPercent * cfg.window)
      <==> AirtimeSince(Selected(ts, false), now - cfg.window) > 0.0
  {
    var kept := AirtimeSince(Selected(ts, true), now - cfg.window);
    var lost := AirtimeSince(Selected(ts, false), now - cfg.window);
    hide *;
    Budget(cfg);
    AirtimeSplits(ts, now - cfg.window);
    KeptWithinLimit(ts, now, cfg);
    if lost > 0.0 {
      var d := MaxAllowed(cfg) - kept;
      JustAdmitted(Selected(ts, true), now, d, cfg);
      assert d >= 0.0 && kept + lost + d > MaxAllowed(cfg);
    } else {
      forall d | d >= 0.0 && Decide(Selected(ts, true), now, d, cfg) == Admitted
        ensures 100.0 * (AirtimeSince(Bursts(ts), now - cfg.window) + d) <= cfg.maxPercent * cfg.window
      {
        AdmittedWithin(Selected(ts, true), now, d, cfg);
        assert kept + lost + d <= MaxAllowed(cfg);
      }
    }
  }

  lemma KeptWithinLimit(ts: seq<Transmission>, now: real, cfg: Settings)
    requires InSequence(Bursts(ts)) && AllAdmitted(Selected(ts, true), cfg) && MaxAllowed(cfg) >= 0.0
    requires forall i :: 0 <= i < |ts| ==> ts[i].burst.recorded <= now
    ensures 0.0 <= AirtimeSince(Selected(ts, true), now - cfg.window) <= MaxAllowed(cfg)
  {
    var x := seq(|ts|, i requires 0 <= i < |ts| => ts[i].burst.recorded);
    assert Instants(Bursts(ts), x);
    SelectedInSequence(ts, x, true);
    SelectedWithin(ts, true);
    var bs := Selected(ts, true);
    hide Selected, MaxAllowed, AirtimeSince, AllAdmitted, Bursts, Instants;
    forall i | 0 <= i < |bs| ensures bs[i].recorded <= now {
      assert bs[i] in bs;
    }
    RecordedWithinLimit(bs, now, cfg);
    AirtimeNotNegative(bs, now - cfg.window);
  }

  lemma JustAdmitted(bs: seq<Burst>, now: real, d: real, cfg: Settings)
    requires d == MaxAllowed(cfg) - AirtimeSince(bs, now - cfg.window) && AirtimeSince(bs, now - cfg.window) >= 0.0
    ensures Decide(bs, now, d, cfg) == Admitted
  {
    hide MaxAllowed, AirtimeSince;
  }

  lemma AdmittedWithin(bs: seq<Burst>, now: real, d: real, cfg: Settings)
    requires Decide(bs, now, d, cfg) == Admitted
    ensures AirtimeSince(bs, now - cfg.window) + d <= MaxAllowed(cfg)
  {
    hide MaxAllowed, AirtimeSince;
  }

  lemma OneAirborne(fate: nat -> Fate)
    requires !fate(0).Failed?
    ensures Airborne(fate, 1) == 1
  {
    assert Airborne(fate, 0) == 0;
  }

  lemma OneLost(l: Limiter, sent: seq<Transmission>)
    requires l.Valid() && l.onAir == sent && |sent| == 1 && !sent[0].kept && sent[0].burst.duration > 0.0
    requires sent[0].burst.recorded == l.clock && l.cfg.window > 0.0 && MaxAllowed(l.cfg) >= 0.0
    ensures exists d: real :: && d >= 0.0 && Decide(l.all, l.clock, d, l.cfg) == Admitted
                              && 100.0 * (AirtimeSince(Bursts(l.onAir), l.clock - l.cfg.window) + d)
                                 > l.cfg.maxPercent * l.cfg.window
  {
    ExceededIffLost(l.onAir, l.clock, l.cfg);
    assert sent[..0] == [] && Selected(sent, false) == [sent[0].burst];
    assert [sent[0].burst][..0] == [];
    assert AirtimeSince([sent[0].burst], l.clock - l.cfg.window) == sent[0].burst.duration;
  }

  /** With any settings that allow airtime at all, one lost burst is enough. */
  method LostBurstEscapes(cfg: Settings, duration: real) returns (l: Limiter)
    requires cfg.window > 0.0 && 0.0 < 100.0 * duration <= cfg.maxPercent * cfg.window
    ensures l.Valid() && l.cfg == cfg
    ensures exists d: real :: && d >= 0.0 && Decide(l.all, l.clock, d, cfg) == Admitted
                              && 100.0 * (AirtimeSince(Bursts(l.onAir), l.clock - cfg.window) + d)
                                 > cfg.maxPercent * cfg.window
  {
    Budget(cfg);
    hide *;
    l := new Limiter(cfg, 0.0);
    ghost var sent;
    var ok, now, tries;
    var fate: nat -> Fate := _ => Lost(true);
    ok, now, tries, sent := l.SendWithRetry(0.0, duration, 1, fate);
    OneAirborne(fate);
    OneLost(l, sent);
  }
}
