/** The LoRaWAN end device (simulator/lorawan/device.py): its session, its multicast groups, and
    what it does with a frame that comes down. */
module EndDevice {
  import opened Bytes
  import opened LorawanCrypto
  import opened LorawanFrames
  import opened LorawanLink
  import opened LorawanUplink
  import opened MulticastQueue

  datatype GroupContext = GroupContext(keys: SessionKeys, fcntDown: nat, minFcnt: nat, maxFcnt: nat)

  /** A group context as a receiver of downlinks. */
  function ContextReceiver(addr: nat, g: GroupContext): Receiver {
    Receiver(addr, g.keys, false, g.fcntDown, g.minFcnt, g.maxFcnt)
  }

  /** The device itself as a receiver of downlinks; it does not look at the counter. */
  function OwnReceiver(s: DeviceSession): Receiver {
    Receiver(s.addr, s.keys, false, 0, 0, 65535)
  }

  /** A downlink that was sealed for the device opens to what was sealed. */
  lemma DownlinkOpens(p: Primitives, s: DeviceSession, fcnt: nat, m: Message)
    requires Sendable(s.addr, m) && fcnt < 65536 && !IsUplink(m.mtype) && m.fport != Some(0)
    ensures var raw := Seal(p, s.keys, s.addr, fcnt, m);
            var frame := DecodeData(raw);
            && Verified(p, s.keys.nwk, false, raw).Some? && frame.Some? && frame.value.mac.fhdr.addr == s.addr
            && var heard := OpenedBy(p, OwnReceiver(s), frame.value);
               heard.fcnt == fcnt && heard.message.payload == m.payload && heard.message.fport == m.fport
               && heard.message.mtype == m.mtype && heard.message.fopts == m.fopts
  {
    hide Seal, DecodeData, Crypt, DataMic;
    var f := Frame(p, s.keys, s.addr, fcnt, m);
    SealedVerifies(p, s.keys, s.addr, fcnt, m);
    CryptTwice(p, s.keys.app, s.addr, fcnt, false, m.payload);
  }

  /** A group as the device sets it up. */
  function NewContext(keys: SessionKeys, minFcnt: nat, maxFcnt: nat): GroupContext {
    GroupContext(keys, minFcnt, minFcnt, maxFcnt)
  }

  /** The two fit: over a channel that keeps every frame in order the device gets everything the
      server builds for the new group, from the first frame on and up to the end of the window. */
  lemma NewGroupsAgree(p: Primitives, addr: nat, keys: SessionKeys, minFcnt: nat, maxFcnt: nat, dataRate: int,
                       requests: seq<(byte, seq<byte>)>)
    requires addr < Pow256(4) && minFcnt <= maxFcnt && minFcnt + |requests| <= 65536
    ensures var g := NewRecord(keys, minFcnt, maxFcnt, dataRate);
            ItemsOf(ReceiveAll(p, ContextReceiver(addr, NewContext(keys, minFcnt, maxFcnt)), BuildRun(p, addr, g, requests).1))
            == Items(BuiltMessages(p, addr, g, requests))
  {
    hide ReceiveAll, BuildRun, BuiltMessages, Items, ItemsOf;
    MulticastAllArrives(p, NewRecord(keys, minFcnt, maxFcnt, dataRate), requests,
                        ContextReceiver(addr, NewContext(keys, minFcnt, maxFcnt)));
  }

  class Device {
    const p: Primitives
    var session: DeviceSession
    var fcntDown: nat
    var groups: map<nat, GroupContext>

    constructor (p: Primitives, session: DeviceSession)
      ensures this.p == p && this.session == session && fcntDown == 0 && groups == map[]
    {
      this.p, this.session, fcntDown, groups := p, session, 0, map[];
    }

    /** A new group has accepted nothing below its window. */
    method JoinMulticastGroup(addr: nat, keys: SessionKeys, fcntDown: nat, minFcnt: nat, maxFcnt: nat) returns (ok: bool)
      modifies this`groups
      ensures ok <==> minFcnt <= maxFcnt <= MAX_FCNT
      ensures ok && fcntDown <= minFcnt ==> addr in groups && groups[addr] == NewContext(keys, minFcnt, maxFcnt)
      ensures groups == if ok then old(groups)[addr := GroupContext(keys, if fcntDown < minFcnt then minFcnt else fcntDown, minFcnt, maxFcnt)]
                        else old(groups)
    {
      if !(minFcnt <= maxFcnt <= MAX_FCNT) {
        return false;
      }
      groups := groups[addr := GroupContext(keys, if fcntDown < minFcnt then minFcnt else fcntDown, minFcnt, maxFcnt)];
      return true;
    }

    /** `send_uplink`, up to the frame that goes on the air. */
    method SendUplink(q: Request) returns (r: SendResult)
      modifies this`session
      ensures (session, r) == LorawanUplink.SendUplink(p, old(session), q)
    {
      hide EncodeMac, EncodeMhdr, DataMic, Crypt, EncodeData;
      if !(1 <= q.fport <= 223) || session.fcntUp > MAX_FCNT {
        return AssertionError;
      }
      var limit := MaxFrmPayload(q.dataRate, |q.fopts|);
      if limit.None? {
        return AssertionError;
      }
      if |q.payload| > limit.value {
        return ValueError;
      }
      var encrypted := EncryptFrmPayload(p, session.keys.app, session.addr, session.fcntUp, true, q.payload);
      var mtype := if q.confirmed then ConfirmedUp else UnconfirmedUp;
      var fhdr := Fhdr(session.addr, FCtrl(false, false, false, q.classB, 0), session.fcntUp, q.fopts);
      var mac := MacPayload(fhdr, Some(q.fport), encrypted);
      var covered := [EncodeMhdr(mtype)] + EncodeMac(mac, true);
      var mic := DataMic(p, session.keys.nwk, session.addr, session.fcntUp, true, covered);
      var raw := EncodeData(DataFrame(mtype, mac, mic));
      assert raw == Seal(p, session.keys, session.addr, session.fcntUp, UplinkMessage(q));
      session := session.(fcntUp := session.fcntUp + 1);
      return Transmitted(raw);
    }

    /** `_process_downlink` for a multicast frame: the counter window is tested before the MIC,
        and the counter moves only for a frame that passes both. For a frame to the device's own
        address only the MIC decides. Other frames change nothing. */
    method ProcessDownlink(raw: seq<byte>) returns (r: Option<Accepted>)
      modifies this`groups, this`fcntDown
      ensures var frame := DecodeData(raw);
              if frame.Some? && frame.value.mac.fhdr.addr in old(groups) then
                var addr := frame.value.mac.fhdr.addr;
                var me := ContextReceiver(addr, old(groups)[addr]);
                && fcntDown == old(fcntDown) && groups.Keys == old(groups).Keys
                && (forall h :: h in groups && h != addr ==> groups[h] == old(groups)[h])
                && ContextReceiver(addr, groups[addr]) == After(p, me, raw)
                && (match Taken(p, me, raw)
                    case None => r == None
                    case Some(f) =>
                      var opens := OpenedBy(p, me, f);
                      && r.Some? && r.value.fcnt == opens.fcnt
                      && r.value.message.(payload := opens.message.payload) == opens.message
                      && r.value.message.payload == Crypt(p, me.keys.app, addr, opens.fcnt, false, f.mac.frmPayload)
                      && (f.mac.fport != Some(0) ==> r.value == opens))
              else
                && groups == old(groups)
                && (r.Some? <==> frame.Some? && frame.value.mac.fhdr.addr == session.addr
                                 && Verified(p, session.keys.nwk, false, raw).Some?)
                && (r.None? ==> fcntDown == old(fcntDown))
                && (r.Some? ==> r.value == OpenedBy(p, OwnReceiver(session), frame.value))
                && (r.Some? ==> fcntDown == (if r.value.fcnt >= old(fcntDown) then r.value.fcnt + 1 else old(fcntDown)))
    {
      hide DecodeData, DataMic, Crypt;
      var frame := DecodeData(raw);
      if frame.None? {
        return None;
      }
      var f := frame.value;
      var h := f.mac.fhdr;
      if h.addr in groups {
        var g := groups[h.addr];
        if !(g.minFcnt <= h.fcnt <= g.maxFcnt) || h.fcnt < g.fcntDown {
          return None;
        }
        if DataMic(p, g.keys.nwk, h.addr, h.fcnt, false, raw[..|raw| - 4]) != f.mic {
          return None;
        }
        groups := groups[h.addr := g.(fcntDown := h.fcnt + 1)];
        // Multicast frames carry no MAC commands, so port 0 is not looked at.
        var plaintext := Crypt(p, g.keys.app, h.addr, h.fcnt, false, f.mac.frmPayload);
        r := Some(Accepted(h.fcnt, Message(f.mtype, h.fctrl, h.fopts, f.mac.fport, plaintext)));
      } else if h.addr == session.addr {
        if DataMic(p, session.keys.nwk, h.addr, h.fcnt, false, raw[..|raw| - 4]) != f.mic {
          return None;
        }
        if h.fcnt >= fcntDown {
          fcntDown := h.fcnt + 1;
        }
        var key := if f.mac.fport == Some(0) then session.keys.nwk else session.keys.app;
        var plaintext := Crypt(p, key, h.addr, h.fcnt, false, f.mac.frmPayload);
        r := Some(Accepted(h.fcnt, Message(f.mtype, h.fctrl, h.fopts, f.mac.fport, plaintext)));
      } else {
        return None;
      }
    }
  }
}
