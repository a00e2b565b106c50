/** The sequential-SF schedule (papers/fuota-sequential-sf-2025): the gateway adds up frame
    periods one by one, the recipients add up whole rounds beforehand. Times are exact. */
module SfSchedule {
  import opened Bytes

  datatype Scenario = Scenario(fsf: bool, fixedSf: int, firstSf: int, lastSf: int, perSf: nat, dutyPercent: real, airtime: int -> real)

  const RETUNE_GUARD: real := 0.001

  ghost predicate Valid(s: Scenario) {
    && 7 <= s.firstSf <= s.lastSf <= 12 && s.perSf > 0 && s.dutyPercent > 0.0
    && forall sf :: s.airtime(sf) > 0.0
  }

  function Period(s: Scenario, sf: int): (p: real)
    requires Valid(s)
    ensures p > 0.0
  {
    s.airtime(sf) * 100.0 / s.dutyPercent
  }

  /** `sf_of_frame`. */
  function SfOf(s: Scenario, index: nat): int
    requires s.perSf > 0
  {
    if s.fsf then s.fixedSf
    else if s.firstSf + index / s.perSf < s.lastSf then s.firstSf + index / s.perSf
    else s.lastSf
  }

  /** Where the gateway's running sum stands before frame n. */
  function FrameStart(s: Scenario, start: real, n: nat): real
    requires Valid(s)
  {
    if n == 0 then start else FrameStart(s, start, n - 1) + Period(s, SfOf(s, n - 1))
  }

  /** Where the recipients' running sum stands after j rounds. */
  function RoundStart(s: Scenario, start: real, j: nat): real
    requires Valid(s)
  {
    if j == 0 then start else RoundStart(s, start, j - 1) + s.perSf as real * Period(s, s.firstSf + (j - 1))
  }

  function Rounds(s: Scenario): nat
    requires Valid(s)
  {
    s.lastSf - s.firstSf
  }

  datatype Sending = Sending(start: real, sf: int)

  datatype Switch = Switch(time: real, sf: int)

  lemma FirstStart(s: Scenario, start: real)
    requires Valid(s)
    ensures FrameStart(s, start, 0) == start
  {
  }

  lemma NextStart(s: Scenario, start: real, n: nat)
    requires Valid(s) && n > 0
    ensures FrameStart(s, start, n) == FrameStart(s, start, n - 1) + Period(s, SfOf(s, n - 1))
  {
  }

  /** `_run_schedule`, for as many frames as the session lasts: done is what the session says
      before each frame, the cap is compared with the next start. */
  method RunSchedule(s: Scenario, start: real, maxDuration: real, done: nat -> bool, cap: nat) returns (sent: seq<Sending>)
    requires Valid(s)
    ensures |sent| <= cap
    ensures forall n :: 0 <= n < |sent| ==> sent[n] == Sending(FrameStart(s, start, n), SfOf(s, n))
    ensures forall n :: 0 <= n < |sent| ==> !done(n) && FrameStart(s, start, n) - start < maxDuration
    ensures |sent| < cap ==> done(|sent|) || FrameStart(s, start, |sent|) - start >= maxDuration
  {
    hide Period, FrameStart, SfOf;
    FirstStart(s, start);
    sent := [];
    var nextStart := start;
    var framesSent := 0;
    while framesSent < cap && !done(framesSent) && !(nextStart - start >= maxDuration)
      invariant framesSent == |sent| <= cap && nextStart == FrameStart(s, start, framesSent) && Valid(s)
      invariant forall n :: 0 <= n < |sent| ==> sent[n] == Sending(FrameStart(s, start, n), SfOf(s, n))
      invariant forall n :: 0 <= n < |sent| ==> !done(n) && FrameStart(s, start, n) - start < maxDuration
      decreases cap - framesSent
    {
      var sf := SfOf(s, framesSent);
      sent := sent + [Sending(nextStart, sf)];
      framesSent := framesSent + 1;
      nextStart := nextStart + Period(s, sf);
      NextStart(s, start, framesSent);
    }
  }

  /** `round_switches`. */
  method RoundSwitches(s: Scenario, start: real) returns (switches: seq<Switch>)
    requires Valid(s)
    ensures |switches| == if s.fsf then 0 else Rounds(s)
    ensures forall j :: 0 <= j < |switches| ==> switches[j] == Switch(RoundStart(s, start, j + 1), s.firstSf + j + 1)
  {
    hide Period;
    switches := [];
    if s.fsf {
      return;
    }
    var time := start;
    for sf := s.firstSf to s.lastSf
      invariant |switches| == sf - s.firstSf && time == RoundStart(s, start, sf - s.firstSf)
      invariant forall j :: 0 <= j < |switches| ==> switches[j] == Switch(RoundStart(s, start, j + 1), s.firstSf + j + 1)
    {
      time := time + s.perSf as real * Period(s, sf);
      switches := switches + [Switch(time, sf + 1)];
    }
  }

  /** The round a frame belongs to. */
  function RoundOf(s: Scenario, n: nat): (r: nat)
    requires Valid(s)
    ensures r <= Rounds(s)
  {
    if n / s.perSf < Rounds(s) then n / s.perSf else Rounds(s)
  }

  lemma RoundTimesLength(s: Scenario, n: nat)
    requires Valid(s)
    ensures RoundOf(s, n) * s.perSf <= n
    ensures RoundOf(s, n) < Rounds(s) ==> n < (RoundOf(s, n) + 1) * s.perSf
  {
    assert n / s.perSf * s.perSf <= n < (n / s.perSf + 1) * s.perSf;
    assert RoundOf(s, n) * s.perSf <= n / s.perSf * s.perSf;
  }

  lemma RoundByQuotient(s: Scenario, j: nat, i: nat)
    requires Valid(s) && j <= Rounds(s) && i < s.perSf && !s.fsf
    ensures SfOf(s, j * s.perSf + i) == s.firstSf + j
  {
    ModuloUnique(j * s.perSf + i, s.perSf, j, i);
  }

  /** The number of the first frame of round j. */
  function FirstFrame(s: Scenario, j: nat): nat {
    j * s.perSf
  }

  lemma RoundLength(s: Scenario, j: nat)
    ensures FirstFrame(s, j) + s.perSf == FirstFrame(s, j + 1)
    ensures FirstFrame(s, 0) == 0
  {
  }

  lemma InRound(s: Scenario, j: nat, i: nat)
    requires Valid(s) && !s.fsf && j <= Rounds(s) && i < s.perSf
    ensures SfOf(s, FirstFrame(s, j) + i) == s.firstSf + j
  {
    RoundByQuotient(s, j, i);
  }

  lemma OneMore(i: nat, p: real)
    ensures i as real * p + p == (i + 1) as real * p
    ensures 0 as real * p == 0.0
  {
  }

  /** Within a round the gateway's sum grows by equal periods. */
  lemma {:induction false} WithinRound(s: Scenario, start: real, j: nat, i: nat)
    requires Valid(s) && !s.fsf && j <= Rounds(s) && i <= s.perSf
    ensures FrameStart(s, start, FirstFrame(s, j) + i)
            == FrameStart(s, start, FirstFrame(s, j)) + i as real * Period(s, s.firstSf + j)
    decreases i
  {
    hide Period, FirstFrame, FrameStart, SfOf;
    OneMore(if i > 0 then i - 1 else 0, Period(s, s.firstSf + j));
    if i > 0 {
      WithinRound(s, start, j, i - 1);
      InRound(s, j, i - 1);
      NextStart(s, start, FirstFrame(s, j) + i);
    }
  }

  /** The two sums agree at every change of round. */
  lemma {:induction false} SumsAgree(s: Scenario, start: real, j: nat)
    requires Valid(s) && !s.fsf && j <= Rounds(s)
    ensures FrameStart(s, start, FirstFrame(s, j)) == RoundStart(s, start, j)
    decreases j
  {
    hide Period, FirstFrame, FrameStart;
    if j == 0 {
      RoundLength(s, 0);
      FirstStart(s, start);
    } else {
      SumsAgree(s, start, j - 1);
      WithinRound(s, start, j - 1, s.perSf);
      RoundLength(s, j - 1);
    }
  }

  /** With one fixed SF the gateway uses no other, and its frames are evenly spaced. */
  lemma {:induction false} FixedSfIsEven(s: Scenario, start: real, n: nat)
    requires Valid(s) && s.fsf
    ensures SfOf(s, n) == s.fixedSf
    ensures FrameStart(s, start, n) == start + n as real * Period(s, s.fixedSf)
    decreases n
  {
    hide Period, FrameStart;
    FirstStart(s, start);
    OneMore(if n > 0 then n - 1 else 0, Period(s, s.fixedSf));
    if n > 0 {
      FixedSfIsEven(s, start, n - 1);
      NextStart(s, start, n);
    }
  }

  lemma {:induction false} StartsAscend(s: Scenario, start: real, m: nat, n: nat)
    requires Valid(s) && m <= n
    ensures FrameStart(s, start, m) <= FrameStart(s, start, n)
    ensures m < n ==> FrameStart(s, start, m) + Period(s, SfOf(s, m)) <= FrameStart(s, start, n)
    decreases n
  {
    hide Period;
    if m < n {
      StartsAscend(s, start, m, n - 1);
    }
  }

  /** Each SF but the last is used for exactly the frames of its round. */
  lemma EachSfItsRound(s: Scenario, r: nat, n: nat)
    requires Valid(s) && !s.fsf && r < Rounds(s)
    ensures SfOf(s, n) == s.firstSf + r <==> FirstFrame(s, r) <= n < FirstFrame(s, r + 1)
  {
    RoundTimesLength(s, n);
    if FirstFrame(s, r) <= n < FirstFrame(s, r + 1) {
      RoundByQuotient(s, r, n - r * s.perSf);
    }
  }

  /** Every frame starts in the interval the recipients' switch list gives to its SF. */
  lemma FrameInItsRound(s: Scenario, start: real, n: nat)
    requires Valid(s) && !s.fsf
    ensures var r := RoundOf(s, n);
            && SfOf(s, n) == s.firstSf + r
            && RoundStart(s, start, r) <= FrameStart(s, start, n)
            && (r < Rounds(s) ==> FrameStart(s, start, n) + Period(s, SfOf(s, n)) <= RoundStart(s, start, r + 1))
  {
    hide Period;
    var r := RoundOf(s, n);
    RoundTimesLength(s, n);
    SumsAgree(s, start, r);
    StartsAscend(s, start, FirstFrame(s, r), n);
    if r < Rounds(s) {
      SumsAgree(s, start, r + 1);
      StartsAscend(s, start, n, FirstFrame(s, r + 1));
    }
  }

  /** The SF a recipient is tuned to: the first j switches are behind it. */
  function TunedSf(s: Scenario, start: real, t: real, j: nat): int
    requires Valid(s) && j <= Rounds(s)
  {
    if j == 0 then s.firstSf
    else if RoundStart(s, start, j) - RETUNE_GUARD <= t then s.firstSf + j
    else TunedSf(s, start, t, j - 1)
  }

  function Tuned(s: Scenario, start: real, t: real): int
    requires Valid(s)
  {
    if s.fsf then s.fixedSf else TunedSf(s, start, t, Rounds(s))
  }

  lemma {:induction false} RoundsAscend(s: Scenario, start: real, i: nat, j: nat)
    requires Valid(s) && i <= j <= Rounds(s)
    ensures RoundStart(s, start, i) <= RoundStart(s, start, j)
    decreases j
  {
    hide Period;
    if i < j {
      RoundsAscend(s, start, i, j - 1);
      var p := Period(s, s.firstSf + (j - 1));
      assert s.perSf as real * p >= 0.0;
    }
  }

  /** Between two retunes the recipient is on the SF of the round. */
  lemma {:induction false} TunedInRound(s: Scenario, start: real, t: real, r: nat, j: nat)
    requires Valid(s) && r <= j <= Rounds(s)
    requires r > 0 ==> RoundStart(s, start, r) - RETUNE_GUARD <= t
    requires r < Rounds(s) ==> t < RoundStart(s, start, r + 1) - RETUNE_GUARD
    ensures TunedSf(s, start, t, j) == s.firstSf + r
    decreases j
  {
    if r < j {
      RoundsAscend(s, start, r + 1, j);
      TunedInRound(s, start, t, r, j - 1);
    }
  }

  function Gap(s: Scenario, sf: int): real
    requires Valid(s)
  {
    Period(s, sf) - s.airtime(sf)
  }

  function FrameEnd(s: Scenario, start: real, n: nat): real
    requires Valid(s)
  {
    FrameStart(s, start, n) + s.airtime(SfOf(s, n))
  }

  /** With a pacing gap of at least the retune guard, a recipient is on the frame's SF from the
      frame's first moment to its last. */
  lemma FrameIsHeardWhole(s: Scenario, start: real, n: nat, t: real)
    requires Valid(s) && (!s.fsf && RoundOf(s, n) < Rounds(s) ==> Gap(s, SfOf(s, n)) >= RETUNE_GUARD)
    requires FrameStart(s, start, n) <= t < FrameEnd(s, start, n)
    ensures Tuned(s, start, t) == SfOf(s, n)
  {
    hide Period;
    if !s.fsf {
      FrameInItsRound(s, start, n);
      TunedInRound(s, start, t, RoundOf(s, n), Rounds(s));
    }
  }

  /** The guard is not only enough but needed: all frames of a round end before the next retune
      exactly when the pacing gap at that SF is at least the retune guard. */
  lemma RoundEndsBeforeRetune(s: Scenario, start: real, r: nat)
    requires Valid(s) && !s.fsf && r < Rounds(s)
    ensures (forall n: nat :: RoundOf(s, n) == r ==> FrameEnd(s, start, n) <= RoundStart(s, start, r + 1) - RETUNE_GUARD)
            <==> Gap(s, s.firstSf + r) >= RETUNE_GUARD
  {
    hide Period;
    var last := r * s.perSf + (s.perSf - 1);
    RoundByQuotient(s, r, s.perSf - 1);
    FrameInItsRound(s, start, last);
    assert RoundOf(s, last) == r;
    SumsAgree(s, start, r + 1);
    assert last + 1 == (r + 1) * s.perSf;
    assert FrameEnd(s, start, last) == RoundStart(s, start, r + 1) - Gap(s, s.firstSf + r);
    forall n: nat | RoundOf(s, n) == r
      ensures FrameEnd(s, start, n) <= RoundStart(s, start, r + 1) - Gap(s, s.firstSf + r)
    {
      FrameInItsRound(s, start, n);
    }
  }

  /** At full duty there is no gap: the last frame of a round is cut by the retune. */
  lemma FullDutyCutsAFrame()
    ensures var s := Scenario(false, 7, 7, 12, 2, 100.0, sf => 1.0);
            && Valid(s) && FrameStart(s, 0.0, 1) == 1.0 && FrameEnd(s, 0.0, 1) == 2.0
            && SfOf(s, 1) == 7 && Tuned(s, 0.0, 1.9995) == 8
  {
    var s := Scenario(false, 7, 7, 12, 2, 100.0, sf => 1.0);
    assert RoundStart(s, 0.0, 0) == 0.0;
    assert RoundStart(s, 0.0, 1) == 2.0;
    assert RoundStart(s, 0.0, 2) == 4.0;
    assert FrameStart(s, 0.0, 0) == 0.0;
    TunedInRound(s, 0.0, 1.9995, 1, 5);
  }

  /** Whether the j-th retune happens: its moment comes, and the session was not done by then. */
  predicate Retuned(s: Scenario, start: real, at: real, doneAt: real, j: nat)
    requires Valid(s)
  {
    var moment := RoundStart(s, start, j) - RETUNE_GUARD;
    moment <= at && moment < doneAt
  }

  /** The recipient's own loop, which stops when the session is done: `at` is a moment at which it
      is looked at. Until the session is done it is tuned as the schedule says; afterwards it stays
      as it was, on the SF of the last retune before. */
  method FollowSchedule(s: Scenario, start: real, at: real, doneAt: real) returns (sf: int)
    requires Valid(s) && !s.fsf
    ensures at < doneAt ==> sf == Tuned(s, start, at)
    ensures s.firstSf <= sf <= s.lastSf
    ensures forall j: nat :: 0 < j <= Rounds(s) ==> (s.firstSf + j <= sf <==> Retuned(s, start, at, doneAt, j))
  {
    hide Period, RoundStart;
    var switches := RoundSwitches(s, start);
    sf := SfOf(s, 0);
    var k := 0;
    while k < |switches|
      invariant 0 <= k <= |switches| && sf == s.firstSf + k
      invariant forall j: nat :: 0 < j <= k ==> Retuned(s, start, at, doneAt, j)
    {
      var moment := switches[k].time - RETUNE_GUARD;
      if moment > at || moment >= doneAt {
        break;
      }
      sf := switches[k].sf;
      k := k + 1;
    }
    forall j: nat | k < j <= Rounds(s)
      ensures !Retuned(s, start, at, doneAt, j)
    {
      RoundsAscend(s, start, k + 1, j);
    }
    if at < doneAt {
      assert k > 0 ==> Retuned(s, start, at, doneAt, k);
      TunedInRound(s, start, at, k, Rounds(s));
    }
  }

  /** The airtime of the first n frames. */
  function AirtimeUpTo(s: Scenario, n: nat): real
    requires Valid(s)
  {
    if n == 0 then 0.0 else AirtimeUpTo(s, n - 1) + s.airtime(SfOf(s, n - 1))
  }

  /** The schedule uses up the duty cycle exactly: between the start and frame n the air is taken
      for just that percentage of the time. */
  lemma {:induction false} ScheduleUsesDuty(s: Scenario, start: real, n: nat)
    requires Valid(s)
    ensures AirtimeUpTo(s, n) * 100.0 == s.dutyPercent * (FrameStart(s, start, n) - start)
  {
    if n > 0 {
      ScheduleUsesDuty(s, start, n - 1);
      PeriodUsesDuty(s, SfOf(s, n - 1));
      var before, period := FrameStart(s, start, n - 1) - start, Period(s, SfOf(s, n - 1));
      assert s.dutyPercent * (before + period) == s.dutyPercent * before + s.dutyPercent * period;
    }
  }

  lemma PeriodUsesDuty(s: Scenario, sf: int)
    requires Valid(s)
    ensures s.dutyPercent * Period(s, sf) == s.airtime(sf) * 100.0
  {
  }
}
