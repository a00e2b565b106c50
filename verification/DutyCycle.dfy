/** Duty cycle limits: the same bookkeeping for an OTA device
    (papers/fuota-unicast-broadcast-2024/scenario.py) and for the LoRaWAN gateway
    (simulator/lorawan/gateway.py). Times and airtimes are exact. */
module DutyCycle {

  /** A frame on the air. Gated frames waited for their slot; replies and beacons do not. */
  datatype Frame = Frame(start: real, airtime: real, gated: bool)

  /** From the start of a frame to the end of the quiet time after it. */
  function Reserved(airtime: real, duty: real): (r: real)
    requires 0.0 < duty <= 1.0
    ensures duty * r == airtime
    ensures airtime >= 0.0 ==> r >= airtime
  {
    assert duty * (1.0 / duty) == 1.0;
    assert duty * (airtime + airtime * (1.0 / duty - 1.0)) == airtime * (duty * (1.0 / duty));
    assert 1.0 / duty >= 1.0;
    airtime + airtime * (1.0 / duty - 1.0)
  }

  /** No gated frame starts within the time reserved for an earlier frame, gated or not. */
  predicate Paced(log: seq<Frame>, duty: real)
    requires 0.0 < duty <= 1.0
  {
    forall i, j :: 0 <= i < j < |log| && log[j].gated ==> log[i].start + Reserved(log[i].airtime, duty) <= log[j].start
  }

  /** Airtime of the gated frames among log[i..j]. */
  function GatedAirtime(log: seq<Frame>, i: nat, j: nat): real
    requires i <= j <= |log|
    decreases j
  {
    if i == j then 0.0
    else GatedAirtime(log, i, j - 1) + (if log[j - 1].gated then log[j - 1].airtime else 0.0)
  }

  function Airtime(log: seq<Frame>, i: nat, j: nat): real
    requires i <= j <= |log|
    decreases j
  {
    if i == j then 0.0 else Airtime(log, i, j - 1) + log[j - 1].airtime
  }

  /** The last gated frame before j, from i on. */
  function LastGated(log: seq<Frame>, i: nat, j: nat): (k: nat)
    requires i < j <= |log| && log[i].gated
    ensures i <= k < j && log[k].gated
    ensures forall m :: k < m < j ==> !log[m].gated
    decreases j
  {
    if log[j - 1].gated then j - 1 else LastGated(log, i, j - 1)
  }

  lemma {:induction false} NoGatedAirtime(log: seq<Frame>, i: nat, k: nat, j: nat)
    requires i <= k <= j <= |log| && forall m :: k <= m < j ==> !log[m].gated
    ensures GatedAirtime(log, i, j) == GatedAirtime(log, i, k)
    decreases j
  {
    if k < j {
      NoGatedAirtime(log, i, k, j - 1);
    }
  }

  /** The airtime of the gated frames from i up to j is at most the duty fraction of the time
      between the starts of i and j, whatever ungated frames were charged in between. */
  lemma {:induction false} DutyCycleHolds(log: seq<Frame>, duty: real, i: nat, j: nat)
    requires 0.0 < duty <= 1.0 && Paced(log, duty)
    requires i <= j < |log| && log[i].gated && log[j].gated
    ensures GatedAirtime(log, i, j) <= duty * (log[j].start - log[i].start)
    decreases j
  {
    hide Reserved, Paced, LastGated;
    if i < j {
      var k := LastGated(log, i, j);
      DutyCycleHolds(log, duty, i, k);
      NoGatedAirtime(log, i, k + 1, j);
      var before, after := log[k].start - log[i].start, log[j].start - log[k].start;
      OneFrame(log, duty, k, j);
      assert GatedAirtime(log, i, j) <= duty * before + duty * after;
      Distribute(duty, before, after);
    }
  }

  lemma OneFrame(log: seq<Frame>, duty: real, k: nat, j: nat)
    requires 0.0 < duty <= 1.0 && Paced(log, duty) && k < j < |log| && log[j].gated
    ensures log[k].airtime <= duty * (log[j].start - log[k].start)
  {
    hide Reserved;
    var r := Reserved(log[k].airtime, duty);
    assert log[k].start + r <= log[j].start;
    Scaled(duty, r, log[j].start - log[k].start);
  }

  lemma Distribute(duty: real, a: real, b: real)
    ensures duty * a + duty * b == duty * (a + b)
  {
  }

  lemma Scaled(duty: real, a: real, b: real)
    requires 0.0 < duty && a <= b
    ensures duty * a <= duty * b
  {
  }

  /** Every frame, gated or not, waited out the quiet time of the one before. */
  predicate AllPaced(log: seq<Frame>, duty: real)
    requires 0.0 < duty <= 1.0
  {
    forall i :: 0 <= i < |log| - 1 ==> log[i].start + Reserved(log[i].airtime, duty) <= log[i + 1].start
  }

  /** The duty cycle for the whole airtime: between the starts of any two frames. */
  predicate WithinDuty(log: seq<Frame>, duty: real) {
    forall i, j :: 0 <= i <= j < |log| ==> Airtime(log, i, j) <= duty * (log[j].start - log[i].start)
  }

  lemma ReservedExactly(airtime: real, duty: real, gap: real)
    requires 0.0 < duty <= 1.0
    ensures Reserved(airtime, duty) <= gap <==> airtime <= duty * gap
  {
    hide Reserved;
    var r := Reserved(airtime, duty);
    if r <= gap {
      Scaled(duty, r, gap);
    } else {
      assert duty * (r - gap) > 0.0;
      Distribute(duty, r - gap, gap);
    }
  }

  lemma {:induction false} PacedIsWithin(log: seq<Frame>, duty: real, i: nat, j: nat)
    requires 0.0 < duty <= 1.0 && AllPaced(log, duty) && i <= j < |log|
    ensures Airtime(log, i, j) <= duty * (log[j].start - log[i].start)
    decreases j
  {
    hide Reserved, AllPaced;
    if i < j {
      PacedIsWithin(log, duty, i, j - 1);
      var before, last := log[j - 1].start - log[i].start, log[j].start - log[j - 1].start;
      assert Reserved(log[j - 1].airtime, duty) <= last by { NextIsPaced(log, duty, j - 1); }
      ReservedExactly(log[j - 1].airtime, duty, last);
      Distribute(duty, before, last);
    }
  }

  lemma NextIsPaced(log: seq<Frame>, duty: real, i: nat)
    requires 0.0 < duty <= 1.0 && AllPaced(log, duty) && i < |log| - 1
    ensures log[i].start + Reserved(log[i].airtime, duty) <= log[i + 1].start
  {
    hide Reserved;
  }

  /** The whole airtime keeps the duty cycle exactly when every frame, not only the gated ones,
      waited out the quiet time before it. */
  lemma WithinDutyExactly(log: seq<Frame>, duty: real)
    requires 0.0 < duty <= 1.0
    ensures WithinDuty(log, duty) <==> AllPaced(log, duty)
  {
    hide Reserved, Airtime;
    if AllPaced(log, duty) {
      forall i, j | 0 <= i <= j < |log|
        ensures Airtime(log, i, j) <= duty * (log[j].start - log[i].start)
      {
        PacedIsWithin(log, duty, i, j);
      }
    }
    if WithinDuty(log, duty) {
      forall i | 0 <= i < |log| - 1
        ensures log[i].start + Reserved(log[i].airtime, duty) <= log[i + 1].start
      {
        WithinIsPaced(log, duty, i);
      }
    }
  }

  lemma WithinIsPaced(log: seq<Frame>, duty: real, i: nat)
    requires 0.0 < duty <= 1.0 && WithinDuty(log, duty) && i + 1 < |log|
    ensures log[i].start + Reserved(log[i].airtime, duty) <= log[i + 1].start
  {
    hide Reserved;
    var gap := log[i + 1].start - log[i].start;
    assert Airtime(log, i, i + 1) <= duty * gap;
    assert Airtime(log, i, i + 1) == Airtime(log, i, i) + log[i].airtime by { hide WithinDuty; }
    hide WithinDuty, Airtime;
    ReservedExactly(log[i].airtime, duty, gap);
  }

  /** A device that only sends gated frames keeps the duty cycle. */
  lemma OnlyGatedIsWithin(log: seq<Frame>, duty: real)
    requires 0.0 < duty <= 1.0 && Paced(log, duty) && forall f :: f in log ==> f.gated
    ensures WithinDuty(log, duty)
  {
    hide Reserved, WithinDuty;
    assert AllPaced(log, duty);
    WithinDutyExactly(log, duty);
  }

  /** When the quiet time of the last frame is over. */
  function EndOfQuiet(log: seq<Frame>, duty: real): real
    requires 0.0 < duty <= 1.0
  {
    if log == [] then 0.0 else log[|log| - 1].start + Reserved(log[|log| - 1].airtime, duty)
  }

  lemma OneMoreFrame(log: seq<Frame>, duty: real, f: Frame)
    requires 0.0 < duty <= 1.0 && (log == [] ==> f.start >= 0.0)
    ensures AllPaced(log + [f], duty) <==> AllPaced(log, duty) && EndOfQuiet(log, duty) <= f.start
  {
    hide Reserved;
    var more := log + [f];
    if AllPaced(more, duty) {
      forall i | 0 <= i < |log| - 1
        ensures log[i].start + Reserved(log[i].airtime, duty) <= log[i + 1].start
      {
        assert more[i] == log[i] && more[i + 1] == log[i + 1];
      }
      if log != [] {
        assert more[|log| - 1].start + Reserved(more[|log| - 1].airtime, duty) <= more[|log| - 1 + 1].start;
      }
    }
  }

  /** A transmitter and its limiter. The log is what went on the air. */
  class Transmitter {
    const duty: real
    var quietUntil: real
    var now: real
    var log: seq<Frame>

    ghost predicate Valid()
      reads this
    {
      && 0.0 < duty <= 1.0 && now >= 0.0 && Paced(log, duty)
      && (forall f :: f in log ==> f.start + Reserved(f.airtime, duty) <= quietUntil)
      && (quietUntil == 0.0 || exists f :: f in log && quietUntil == f.start + Reserved(f.airtime, duty))
      && (AllPaced(log, duty) ==> quietUntil == EndOfQuiet(log, duty))
    }

    constructor (duty: real)
      requires 0.0 < duty <= 1.0
      ensures Valid() && log == [] && now == 0.0 && this.duty == duty
    {
      this.duty, quietUntil, now, log := duty, 0.0, 0.0, [];
    }

    /** `reserve`: books the frame and its quiet time from now on. */
    method Reserve(airtime: real)
      requires 0.0 < duty <= 1.0
      modifies this`quietUntil
      ensures var end := now + Reserved(airtime, duty);
              quietUntil == if old(quietUntil) < end then end else old(quietUntil)
    {
      var quietTime := airtime * (1.0 / duty - 1.0);
      var endOfQuiet := now + airtime + quietTime;
      assert endOfQuiet == now + Reserved(airtime, duty);
      if quietUntil < endOfQuiet {
        quietUntil := endOfQuiet;
      }
    }

    /** `wait_for_slot`. */
    method WaitForSlot()
      modifies this`now
      ensures now == if old(now) < quietUntil then quietUntil else old(now)
    {
      if now < quietUntil {
        now := quietUntil;
      }
    }

    method Elapse(time: real)
      requires Valid() && time >= 0.0
      modifies this`now
      ensures Valid() && now == old(now) + time
    {
      hide Reserved, Paced, AllPaced;
      now := now + time;
    }

    /** Puts a frame on the air now, and reserves its quiet time. */
    method SendNow(airtime: real, gated: bool)
      requires Valid() && airtime >= 0.0 && (gated ==> quietUntil <= now)
      modifies this
      ensures Valid() && log == old(log) + [Frame(old(now), airtime, gated)] && now == old(now) + airtime
      ensures AllPaced(log, duty) <==> old(AllPaced(log, duty)) && old(quietUntil) <= old(now)
    {
      hide Reserved, Paced, AllPaced;
      var f := Frame(now, airtime, gated);
      ghost var before := log;
      StaysPaced(log, duty, f, quietUntil);
      OneMoreFrame(log, duty, f);
      AgainstQuiet(log, duty, quietUntil);
      Reserve(airtime);
      log := log + [f];
      now := now + airtime;
      assert log[..|before|] == before;
      NonNegative(airtime, duty);
      assert f in log;
      assert forall x :: x in before ==> x in log;
    }

    /** Waits for a slot, reserves, and sends: `OtaDevice.transmit`, and the gateway's scheduled
        multicast frames. The duty cycle is never lost by such a frame. */
    method TransmitGated(airtime: real)
      requires Valid() && airtime >= 0.0
      modifies this
      ensures Valid() && log == old(log) + [Frame(if old(now) < old(quietUntil) then old(quietUntil) else old(now), airtime, true)]
      ensures now == log[|log| - 1].start + airtime
      ensures WithinDuty(log, duty) <==> old(WithinDuty(log, duty))
    {
      hide Reserved, Paced, AllPaced, WithinDuty;
      WithinDutyExactly(log, duty);
      WaitForSlot();
      SendNow(airtime, true);
      WithinDutyExactly(log, duty);
    }

    /** Sends now and only charges the budget: `_transmit` for replies and beacons. The whole
        airtime stays within the duty cycle exactly when the quiet time was over. */
    method TransmitUngated(airtime: real)
      requires Valid() && airtime >= 0.0
      modifies this
      ensures Valid() && log == old(log) + [Frame(old(now), airtime, false)] && now == old(now) + airtime
      ensures WithinDuty(log, duty) <==> old(WithinDuty(log, duty)) && old(quietUntil) <= old(now)
    {
      hide Reserved, Paced, AllPaced, WithinDuty;
      WithinDutyExactly(log, duty);
      SendNow(airtime, false);
      WithinDutyExactly(log, duty);
    }
  }

  lemma NonNegative(airtime: real, duty: real)
    requires 0.0 < duty <= 1.0 && airtime >= 0.0
    ensures Reserved(airtime, duty) >= 0.0
  {
    hide Reserved;
  }

  lemma StaysPaced(log: seq<Frame>, duty: real, f: Frame, quietUntil: real)
    requires 0.0 < duty <= 1.0 && Paced(log, duty)
    requires forall x :: x in log ==> x.start + Reserved(x.airtime, duty) <= quietUntil
    requires f.gated ==> quietUntil <= f.start
    ensures Paced(log + [f], duty)
  {
    hide Reserved;
  }

  /** While all frames are paced the limiter knows the end of the last quiet time. */
  lemma AgainstQuiet(log: seq<Frame>, duty: real, quietUntil: real)
    requires 0.0 < duty <= 1.0
    requires forall x :: x in log ==> x.start + Reserved(x.airtime, duty) <= quietUntil
    ensures log != [] ==> EndOfQuiet(log, duty) <= quietUntil
  {
    hide Reserved;
  }

  /** A run that exceeds the duty cycle: a reply goes out in the quiet time of a gated frame. */
  method ReplyInQuietTime() returns (t: Transmitter)
    ensures t.log == [Frame(0.0, 1.0, true), Frame(9.0, 1.0, false), Frame(19.0, 1.0, true)]
    ensures t.Valid() && t.duty == 0.1 && !WithinDuty(t.log, 0.1)
  {
    hide Paced, AllPaced, WithinDuty, Airtime;
    assert Reserved(1.0, 0.1) == 10.0;
    t := new Transmitter(0.1);
    t.TransmitGated(1.0);
    t.Elapse(8.0);
    t.TransmitUngated(1.0);
    t.TransmitGated(1.0);
  }
}
