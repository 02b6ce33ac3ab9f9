/** The sending application of the wireless example: each send event sends one packet and
    schedules the next, up to the configured number of packets.

    The simulator is modelled by the set of its pending send events; any pending one may fire. */
module Sender {

  /** What happened to the application, in order. */
  datatype Action = Start | Stop | Sent

  predicate Running(log: seq<Action>) {
    log != [] && (log[|log| - 1] == Start || (log[|log| - 1] == Sent && Running(log[..|log| - 1])))
  }

  /** The packets sent since the last start. */
  function SinceStart(log: seq<Action>): nat {
    if log == [] then 0
    else match log[|log| - 1]
      case Start => 0
      case Stop => SinceStart(log[..|log| - 1])
      case Sent => SinceStart(log[..|log| - 1]) + 1
  }

  /** Every packet was sent while running and was one of the first n since its start. */
  ghost predicate Lawful(log: seq<Action>, n: nat) {
    forall i :: 0 <= i < |log| && log[i] == Sent ==> Running(log[..i]) && SinceStart(log[..i]) < n
  }

  function Sends(n: nat): seq<Action> {
    seq(n, _ => Sent)
  }

  lemma SendsGrow(log: seq<Action>, n: nat)
    ensures log + Sends(0) == log
    ensures log + Sends(n) + [Sent] == log + Sends(n + 1)
  {
  }

  lemma Logged(log: seq<Action>, a: Action, n: nat)
    requires Lawful(log, n) && (a == Sent ==> Running(log) && SinceStart(log) < n)
    ensures Lawful(log + [a], n)
    ensures Running(log + [a]) == (a == Start || (a == Sent && Running(log)))
    ensures SinceStart(log + [a])
         == match a case Start => 0 case Stop => SinceStart(log) case Sent => SinceStart(log) + 1
  {
    var all := log + [a];
    assert all[..|log|] == log;
    forall i | 0 <= i < |all| && all[i] == Sent ensures Running(all[..i]) && SinceStart(all[..i]) < n {
      if i < |log| { assert all[..i] == log[..i]; }
    }
  }

  /** A lawful log holds no packet between a stop and the next start. */
  lemma {:induction false} SilentWhileStopped(log: seq<Action>, n: nat, i: nat, j: nat)
    requires Lawful(log, n) && i < j < |log| && log[i] == Stop
    requires forall k :: i < k < j ==> log[k] != Start
    ensures log[j] != Sent && !Running(log[..j])
    decreases j
  {
    assert log[..j][..j - 1] == log[..j - 1];
    if j > i + 1 { SilentWhileStopped(log, n, i, j - 1); }
  }

  /** And at most n packets between a start and the next one. */
  lemma {:induction false} AtMostNPerStart(log: seq<Action>, n: nat, i: nat, j: nat)
    requires Lawful(log, n) && i < j <= |log| && log[i] == Start
    requires forall k :: i < k < j ==> log[k] != Start
    ensures CountSent(log[i..j]) == SinceStart(log[..j]) <= n
    decreases j
  {
    assert log[..j][..j - 1] == log[..j - 1];
    assert log[i..j][..j - i - 1] == log[i..j - 1];
    if j > i + 1 {
      AtMostNPerStart(log, n, i, j - 1);
    }
  }

  function CountSent(log: seq<Action>): nat {
    if log == [] then 0 else CountSent(log[..|log| - 1]) + if log[|log| - 1] == Sent then 1 else 0
  }

  class SenderApp {
    const nPackets: nat
    var count: nat
    var sendEvent: nat          // the event id last stored
    var pending: set<nat>       // send events the simulator still holds
    var nextId: nat
    ghost var log: seq<Action>

    /** At most one live event, and it is the stored one; while running, an event is pending
        exactly as long as packets are left. */
    ghost predicate Valid()
      reads this
    {
      && nPackets > 0 && pending <= {sendEvent} && sendEvent < nextId
      && Lawful(log, nPackets) && count == SinceStart(log) <= nPackets
      && (!Running(log) ==> pending == {})
      && (Running(log) ==> (pending == {sendEvent} <==> count < nPackets))
    }

    constructor (nPackets: nat)
      requires nPackets > 0
      ensures Valid() && this.nPackets == nPackets && log == []
    {
      this.nPackets := nPackets;
      count, sendEvent, pending, nextId, log := 0, 0, {}, 1, [];
    }

    method Cancel(event: nat)
      modifies this`pending
      ensures pending == old(pending) - {event}
    {
      pending := pending - {event};
    }

    method Schedule() returns (event: nat)
      modifies this`pending, this`nextId
      ensures event == old(nextId) && nextId == old(nextId) + 1 && pending == old(pending) + {event}
    {
      event := nextId;
      nextId := nextId + 1;
      pending := pending + {event};
    }

    method StartApplication()
      requires Valid()
      modifies this
      ensures Valid() && log == old(log) + [Start] && pending == {sendEvent}
    {
      Logged(log, Start, nPackets);
      count := 0;
      Cancel(sendEvent);
      sendEvent := Schedule();
      log := log + [Start];
    }

    method StopApplication()
      requires Valid()
      modifies this
      ensures Valid() && log == old(log) + [Stop] && pending == {}
    {
      Logged(log, Stop, nPackets);
      Cancel(sendEvent);
      log := log + [Stop];
    }

    /** A pending event fires: one packet more, and the next event unless it was the last. */
    method SendPacket(event: nat)
      requires Valid() && event in pending
      modifies this
      ensures Valid() && log == old(log) + [Sent]
      ensures pending == {} <==> SinceStart(log) == nPackets
    {
      Logged(log, Sent, nPackets);
      pending := pending - {event};
      log := log + [Sent];
      count := count + 1;
      if count < nPackets {
        sendEvent := Schedule();
      }
    }

    /** Left alone after a start, the sender sends exactly its number of packets. */
    method RunFromStart()
      requires Valid()
      modifies this
      ensures Valid() && pending == {} && log == old(log) + [Start] + Sends(nPackets)
    {
      hide Lawful, SinceStart, Running, Sends;
      StartApplication();
      ghost var started := log;
      ghost var n := 0;
      Logged(old(log), Start, nPackets);
      SendsGrow(started, 0);
      while pending != {}
        invariant Valid() && Running(log) && n == SinceStart(log) && log == started + Sends(n)
        decreases nPackets - SinceStart(log)
      {
        var event :| event in pending;
        Logged(log, Sent, nPackets);
        SendsGrow(started, n);
        SendPacket(event);
        n := n + 1;
      }
    }

    /** Any run of starts, stops and firings: never more than one live event, no packet while
        stopped, and never more packets since a start than configured. */
    method Run(steps: nat)
      requires Valid()
      modifies this
      ensures Valid() && old(log) <= log && Lawful(log, nPackets) && |pending| <= 1
    {
      for i := 0 to steps
        invariant Valid() && old(log) <= log
      {
        if
        case true => StartApplication();
        case true => StopApplication();
        case event: nat :| event in pending => SendPacket(event);
        case true =>
      }
      if pending != {} { assert pending == {sendEvent}; }
    }
  }
}
