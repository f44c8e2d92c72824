/** End-to-end delivery of one direction of a secure channel: a numbering, sealing sender, a
    network that drops, duplicates and reorders envelopes but makes none up, and a receiver
    that checks its replay window before opening.  The two directions of a session pair use
    different ciphers, nonces, counters and windows, so each is one such channel. */
module Delivery {
  import opened Words
  import opened SecureChannel

  /** What the sender's and the receiver's session agree on. */
  datatype Direction = Direction(cipher: Aead, base: Nonce)

  /** One delivery: the index of the message in the order it was sent, and what came out. */
  datatype Delivered = Delivered(index: nat, plaintext: Bytes)

  ghost predicate IndexIn(log: seq<Delivered>, i: nat) {
    exists j | 0 <= j < |log| :: log[j].index == i
  }

  datatype State = State(
    sent: seq<Bytes>,           // plaintexts handed to Encrypt, in order
    wire: seq<Bytes>,           // the envelope each of them became
    sendSeq: Uint64,            // the sender's counter
    accepted: set<nat>,         // the receiver's window, as a set
    log: seq<Delivered>)        // what Decrypt returned, in order

  const INITIAL := State([], [], 0, {}, [])

  /** An envelope may arrive at any time after it was sent, any number of times, or never. */
  datatype Event = Send(plaintext: Bytes) | Arrive(index: nat)

  ghost function Step(d: Direction, s: State, e: Event): State {
    match e
    case Send(p) =>
      var n := NextSeq(s.sendSeq);
      s.(sent := s.sent + [p], wire := s.wire + [Envelope(d.cipher, d.base, n, p)], sendSeq := n)
    case Arrive(i) =>
      if i >= |s.wire| then s
      else
        var (accepted, r) := Receive(d.cipher, d.base, s.accepted, s.wire[i]);
        match r
        case Plain(p) => s.(accepted := accepted, log := s.log + [Delivered(i, p)])
        case Rejected(_) => s.(accepted := accepted)
  }

  ghost function Run(d: Direction, events: seq<Event>): State {
    if events == [] then INITIAL
    else Step(d, Run(d, events[..|events| - 1]), events[|events| - 1])
  }

  /** The number the i-th message carries. */
  function NumberOf(i: nat): Uint64 {
    (i + 1) % TWO64
  }

  /** Every envelope on the wire is its message, sealed under its own number. */
  ghost predicate WireInv(d: Direction, s: State) {
    && |s.wire| == |s.sent|
    && s.sendSeq == |s.sent| % TWO64
    && (forall i | 0 <= i < |s.wire| :: s.wire[i] == Envelope(d.cipher, d.base, NumberOf(i), s.sent[i]))
  }

  /** The deliveries are messages that were sent, and the window holds their numbers. */
  ghost predicate LogInv(s: State) {
    && (forall j | 0 <= j < |s.log| :: s.log[j].index < |s.sent| && s.log[j].plaintext == s.sent[s.log[j].index])
    && (forall j | 0 <= j < |s.log| :: NumberOf(s.log[j].index) in s.accepted)
    && (forall a | a in s.accepted :: exists j | 0 <= j < |s.log| :: NumberOf(s.log[j].index) == a)
    && (forall j, k | 0 <= j < k < |s.log| :: NumberOf(s.log[j].index) != NumberOf(s.log[k].index))
  }

  ghost predicate Inv(d: Direction, s: State) {
    WireInv(d, s) && LogInv(s)
  }

  /** The header of an envelope gives its number back, and a lawful cipher opens it. */
  lemma EnvelopeOpens(d: Direction, n: Uint64, p: Bytes)
    requires Lawful(d.cipher)
    ensures var e := Envelope(d.cipher, d.base, n, p);
            && |e| >= ENVELOPE_HEADER + GCM_TAG_SIZE
            && e[0] == ENVELOPE_VERSION
            && SeqOf(e) == n
            && OpenEnvelope(d.cipher, d.base, e) == Plain(p)
  {
    var e := Envelope(d.cipher, d.base, n, p);
    var sealed := d.cipher.seal(NonceFor(d.base, n), p);
    assert e[ENVELOPE_HEADER..] == sealed;
    assert e[1..9] == PutBE(n, 8);
    Pow256Is64();
    BigEndianRoundTrip(n, 8);
  }

  /** On arrival of the i-th envelope exactly one thing decides: whether its number is
      acceptable to the window. */
  lemma ArrivalOutcome(d: Direction, s: State, i: nat)
    requires Lawful(d.cipher) && Inv(d, s) && i < |s.wire|
    ensures Step(d, s, Arrive(i)) ==
            if Acceptable(s.accepted, NumberOf(i))
            then s.(accepted := s.accepted + {NumberOf(i)}, log := s.log + [Delivered(i, s.sent[i])])
            else s
  {
    EnvelopeOpens(d, NumberOf(i), s.sent[i]);
  }

  lemma SendKeepsWire(d: Direction, s: State, p: Bytes)
    requires WireInv(d, s)
    ensures WireInv(d, Step(d, s, Send(p)))
  {
    assert NextSeq(s.sendSeq) == NumberOf(|s.sent|);
    hide NumberOf, Envelope;
  }

  lemma SendKeepsLog(d: Direction, s: State, p: Bytes)
    requires LogInv(s)
    ensures LogInv(Step(d, s, Send(p)))
  {
    hide NumberOf, Envelope, NextSeq;
  }

  lemma DeliveryKeepsInv(d: Direction, s: State, i: nat)
    requires Inv(d, s) && i < |s.wire| && Acceptable(s.accepted, NumberOf(i))
    ensures Inv(d, s.(accepted := s.accepted + {NumberOf(i)}, log := s.log + [Delivered(i, s.sent[i])]))
  {
    var log := s.log + [Delivered(i, s.sent[i])];
    assert NumberOf(i) !in s.accepted;
    hide NumberOf, Envelope, Acceptable;
    forall a | a in s.accepted + {NumberOf(i)}
      ensures exists j | 0 <= j < |log| :: NumberOf(log[j].index) == a
    {
      if a in s.accepted {
        var j :| 0 <= j < |s.log| && NumberOf(s.log[j].index) == a;
        assert log[j] == s.log[j];
      } else {
        assert log[|s.log|].index == i;
      }
    }
  }

  lemma StepKeepsInv(d: Direction, s: State, e: Event)
    requires Lawful(d.cipher) && Inv(d, s)
    ensures Inv(d, Step(d, s, e))
  {
    match e
    case Send(p) =>
      SendKeepsWire(d, s, p);
      SendKeepsLog(d, s, p);
    case Arrive(i) =>
      if i < |s.wire| {
        ArrivalOutcome(d, s, i);
        if Acceptable(s.accepted, NumberOf(i)) {
          DeliveryKeepsInv(d, s, i);
        }
      }
  }

  lemma {:induction false} RunKeepsInv(d: Direction, events: seq<Event>)
    requires Lawful(d.cipher)
    ensures Inv(d, Run(d, events))
  {
    if events != [] {
      RunKeepsInv(d, events[..|events| - 1]);
      StepKeepsInv(d, Run(d, events[..|events| - 1]), events[|events| - 1]);
    }
  }

  /** Whatever the network does, and however many messages are sent: each delivery is the
      plaintext that was sent under that index, unchanged, and no message is delivered twice. */
  lemma AtMostOnceUnchanged(d: Direction, events: seq<Event>)
    requires Lawful(d.cipher)
    ensures var s := Run(d, events);
            && (forall j | 0 <= j < |s.log| ::
                  s.log[j].index < |s.sent| && s.log[j].plaintext == s.sent[s.log[j].index])
            && (forall j, k | 0 <= j < k < |s.log| :: s.log[j].index != s.log[k].index)
  {
    RunKeepsInv(d, events);
  }

  /** Message i was not delivered before and is less than 64 behind every delivered one. */
  ghost predicate Fits(log: seq<Delivered>, i: nat) {
    !IndexIn(log, i) && forall j | 0 <= j < |log| :: log[j].index < i + WINDOW_SIZE
  }

  lemma SmallNumber(i: nat)
    requires i + 1 < TWO64
    ensures NumberOf(i) == i + 1
  {}

  lemma FitsIsAcceptable(d: Direction, s: State, i: nat)
    requires Inv(d, s) && i < |s.sent| < TWO64
    ensures Acceptable(s.accepted, NumberOf(i)) <==> Fits(s.log, i)
  {
    hide NumberOf;
    SmallNumber(i);
    forall j | 0 <= j < |s.log| ensures NumberOf(s.log[j].index) == s.log[j].index + 1 {
      SmallNumber(s.log[j].index);
    }
    if Fits(s.log, i) {
      forall a | a in s.accepted ensures a < NumberOf(i) + WINDOW_SIZE && a != NumberOf(i) {
        var j :| 0 <= j < |s.log| && NumberOf(s.log[j].index) == a;
      }
    }
    if Acceptable(s.accepted, NumberOf(i)) {
      forall j | 0 <= j < |s.log| ensures s.log[j].index < i + WINDOW_SIZE && s.log[j].index != i {
        assert NumberOf(s.log[j].index) in s.accepted;
      }
    }
  }

  /** With fewer than 2^64 messages sent, an envelope is delivered on arrival exactly when it
      was not delivered before and is less than 64 behind every message delivered so far. */
  lemma DeliveredExactlyWhen(d: Direction, events: seq<Event>, i: nat)
    requires Lawful(d.cipher)
    requires i < |Run(d, events).sent| < TWO64
    ensures var s := Run(d, events);
            Run(d, events + [Arrive(i)]).log ==
            if Fits(s.log, i) then s.log + [Delivered(i, s.sent[i])] else s.log
  {
    var s := Run(d, events);
    RunKeepsInv(d, events);
    assert (events + [Arrive(i)])[..|events|] == events;
    ArrivalOutcome(d, s, i);
    FitsIsAcceptable(d, s, i);
  }

  /** No arrival trails an earlier arrival by 64 messages or more. */
  ghost predicate LittleReordering(events: seq<Event>) {
    forall j, k | 0 <= j < k < |events| && events[j].Arrive? && events[k].Arrive? ::
      events[j].index < events[k].index + WINDOW_SIZE
  }

  /** Every arrival names a message already sent. */
  ghost predicate NothingForged(d: Direction, events: seq<Event>) {
    forall k | 0 <= k < |events| && events[k].Arrive? ::
      events[k].index < |Run(d, events[..k]).sent|
  }

  lemma {:induction false} SentGrows(d: Direction, events: seq<Event>, k: nat)
    requires k <= |events|
    ensures |Run(d, events[..k]).sent| <= |Run(d, events).sent|
  {
    if k < |events| {
      assert events[..|events| - 1][..k] == events[..k];
      SentGrows(d, events[..|events| - 1], k);
    } else {
      assert events[..k] == events;
    }
  }

  lemma {:induction false} DeliveredArrived(d: Direction, events: seq<Event>, j: nat)
    requires j < |Run(d, events).log|
    ensures Arrive(Run(d, events).log[j].index) in events
  {
    var front, e := events[..|events| - 1], events[|events| - 1];
    if j < |Run(d, front).log| {
      DeliveredArrived(d, front, j);
    }
    assert forall x | x in front :: x in events;
    assert e in events;
  }

  /** When reordering stays within the window, nothing that arrives is lost: the messages
      delivered are exactly the messages that arrived at least once. */
  lemma NothingLostWithinWindow(d: Direction, events: seq<Event>, i: nat)
    requires Lawful(d.cipher) && NothingForged(d, events) && LittleReordering(events)
    requires |Run(d, events).sent| < TWO64
    ensures IndexIn(Run(d, events).log, i) <==> Arrive(i) in events
  {
    if IndexIn(Run(d, events).log, i) {
      var j :| 0 <= j < |Run(d, events).log| && Run(d, events).log[j].index == i;
      DeliveredArrived(d, events, j);
    }
    if Arrive(i) in events {
      ArrivedDelivered(d, events, i);
    }
  }

  lemma FrontIsHonest(d: Direction, events: seq<Event>)
    requires events != [] && NothingForged(d, events) && LittleReordering(events)
    ensures NothingForged(d, events[..|events| - 1]) && LittleReordering(events[..|events| - 1])
  {
    var front := events[..|events| - 1];
    forall k | 0 <= k < |front| && front[k].Arrive?
      ensures front[k].index < |Run(d, front[..k]).sent|
    {
      assert front[..k] == events[..k];
    }
  }

  lemma LastArrivalFits(d: Direction, events: seq<Event>)
    requires events != [] && NothingForged(d, events) && LittleReordering(events)
    requires events[|events| - 1].Arrive?
    ensures events[|events| - 1].index < |Run(d, events[..|events| - 1]).sent|
    ensures var i := events[|events| - 1].index;
            var log := Run(d, events[..|events| - 1]).log;
            forall j | 0 <= j < |log| :: log[j].index < i + WINDOW_SIZE
  {
    var n := |events| - 1;
    var log := Run(d, events[..n]).log;
    forall j | 0 <= j < |log| ensures log[j].index < events[n].index + WINDOW_SIZE {
      DeliveredArrived(d, events[..n], j);
      var k :| 0 <= k < n && events[..n][k] == Arrive(log[j].index);
      assert events[k] == Arrive(log[j].index);
    }
  }

  lemma LastArrivalDelivered(d: Direction, front: seq<Event>, i: nat)
    requires Lawful(d.cipher) && i < |Run(d, front).sent| < TWO64
    requires forall j | 0 <= j < |Run(d, front).log| :: Run(d, front).log[j].index < i + WINDOW_SIZE
    ensures IndexIn(Run(d, front + [Arrive(i)]).log, i)
  {
    DeliveredExactlyWhen(d, front, i);
    var log := Run(d, front).log;
    if !IndexIn(log, i) {
      assert Run(d, front + [Arrive(i)]).log[|log|].index == i;
    }
  }

  lemma {:induction false} ArrivedDelivered(d: Direction, events: seq<Event>, i: nat)
    requires Lawful(d.cipher) && NothingForged(d, events) && LittleReordering(events)
    requires |Run(d, events).sent| < TWO64
    requires Arrive(i) in events
    ensures IndexIn(Run(d, events).log, i)
  {
    hide NothingForged, LittleReordering, Lawful, IndexIn, Step;
    var n := |events| - 1;
    var front, e := events[..n], events[n];
    assert events == front + [e];
    SentGrows(d, events, n);
    if Arrive(i) in front {
      FrontIsHonest(d, events);
      ArrivedDelivered(d, front, i);
      LogGrows(d, Run(d, front), e, i);
    } else {
      assert e == Arrive(i);
      LastArrivalFits(d, events);
      LastArrivalDelivered(d, front, i);
    }
  }

  lemma LogGrows(d: Direction, s: State, e: Event, i: nat)
    requires IndexIn(s.log, i)
    ensures IndexIn(Step(d, s, e).log, i)
  {
    var j :| 0 <= j < |s.log| && s.log[j].index == i;
    assert Step(d, s, e).log[j] == s.log[j];
  }

  /** Two sessions derived from the same key material, one per side, mirror each other, so
      each direction between them is a channel as described here. */
  ghost predicate Mirrored(sender: Session, receiver: Session, d: Direction) {
    && sender.sendCipher == receiver.recvCipher == d.cipher
    && sender.sendNonce == receiver.recvNonce == d.base
  }

  /** The direction from the master to the agent, or back. */
  function DirectionOf(keys: KeyMaterial, masterSends: bool): Direction {
    if masterSends then Direction(keys.m2a, keys.m2aNonce) else Direction(keys.a2m, keys.a2mNonce)
  }

  /** One event of either direction. */
  datatype Traffic = Traffic(fromMaster: bool, event: Event)

  /** The events of one direction, in their order. */
  function Side(script: seq<Traffic>, fromMaster: bool): seq<Event> {
    if script == [] then []
    else
      var last := script[|script| - 1];
      Side(script[..|script| - 1], fromMaster) + (if last.fromMaster == fromMaster then [last.event] else [])
  }

  lemma SideStep(d: Direction, script: seq<Traffic>, n: nat, fromMaster: bool)
    requires n < |script|
    ensures Run(d, Side(script[..n + 1], fromMaster))
            == if script[n].fromMaster == fromMaster
               then Step(d, Run(d, Side(script[..n], fromMaster)), script[n].event)
               else Run(d, Side(script[..n], fromMaster))
  {
    assert script[..n + 1][..n] == script[..n];
    var before := Side(script[..n], fromMaster);
    assert (before + [script[n].event])[..|before|] == before;
    assert before + [] == before;
  }

  /** The sessions and the network carry one direction as the run s of the lemmas says. */
  ghost predicate Carries(sender: Session, receiver: Session, wire: seq<Bytes>, log: seq<Delivered>,
                          d: Direction, s: State)
    reads sender, receiver, receiver.recvWindow
  {
    && receiver.Valid() && Mirrored(sender, receiver, d)
    && s.wire == wire && s.log == log && s.sendSeq == sender.sendSeq && s.accepted == receiver.recvWindow.accepted
  }

  /** One event of the direction from sender to receiver. */
  method Relay(sender: Session, receiver: Session, wire: seq<Bytes>, log: seq<Delivered>, e: Event,
               ghost d: Direction, ghost s: State)
    returns (wire': seq<Bytes>, log': seq<Delivered>)
    requires sender != receiver && Carries(sender, receiver, wire, log, d, s)
    modifies sender`sendSeq, receiver.recvWindow
    ensures Carries(sender, receiver, wire', log', d, Step(d, s, e))
  {
    wire', log' := wire, log;
    match e {
      case Send(p) =>
        var envelope := sender.Encrypt(p);
        wire' := wire + [envelope];
      case Arrive(i) =>
        if i < |wire| {
          var r := receiver.Decrypt(wire[i]);
          if r.Plain? {
            log' := log + [Delivered(i, r.plaintext)];
          }
        }
    }
  }

  /** Two fresh sessions derived from the same keys, both sending and receiving over any script:
      each direction delivers what the run of its own events says, whatever the other does. */
  method Exchange(keys: KeyMaterial, script: seq<Traffic>)
    returns (atAgent: seq<Delivered>, atMaster: seq<Delivered>)
    ensures atAgent == Run(DirectionOf(keys, true), Side(script, true)).log
    ensures atMaster == Run(DirectionOf(keys, false), Side(script, false)).log
  {
    ghost var down, up := DirectionOf(keys, true), DirectionOf(keys, false);
    var master := new Session(keys, true);
    var agent := new Session(keys, false);
    var toAgent: seq<Bytes>, toMaster: seq<Bytes> := [], [];
    atAgent, atMaster := [], [];
    for n := 0 to |script|
      invariant master.recvWindow != agent.recvWindow
      invariant Carries(master, agent, toAgent, atAgent, down, Run(down, Side(script[..n], true)))
      invariant Carries(agent, master, toMaster, atMaster, up, Run(up, Side(script[..n], false)))
    {
      SideStep(down, script, n, true);
      SideStep(up, script, n, false);
      hide Step, Run, Side;
      if script[n].fromMaster {
        toAgent, atAgent := Relay(master, agent, toAgent, atAgent, script[n].event, down,
                                  Run(down, Side(script[..n], true)));
      } else {
        toMaster, atMaster := Relay(agent, master, toMaster, atMaster, script[n].event, up,
                                    Run(up, Side(script[..n], false)));
      }
    }
    assert script[..|script|] == script;
  }

  /** The j-th and the k-th message of a session are sealed under the same nonce exactly when
      their positions agree modulo 2^64; so no nonce repeats within 2^64 messages. */
  lemma NonceReuse(base: Nonce, j: nat, k: nat)
    ensures NonceFor(base, NumberOf(j)) == NonceFor(base, NumberOf(k)) <==> j % TWO64 == k % TWO64
  {
    assert NumberOf(j) == NumberOf(k) <==> j % TWO64 == k % TWO64 by {
      NumberAgrees(j, k);
    }
    hide NumberOf;
    NonceInjective(base, NumberOf(j), NumberOf(k));
  }

  /** The i-th message stands on the wire sealed under this nonce, which has the bits of its
      number. */
  ghost predicate SealedUnder(d: Direction, s: State, i: nat, nonce: Nonce) {
    && i < |s.wire| == |s.sent| && |s.wire[i]| >= 9
    && s.wire[i][9..] == d.cipher.seal(nonce, s.sent[i])
    && NonceBits(nonce, d.base, NumberOf(i))
  }

  /** Over any run every message on the wire is sealed under the nonce of its number, and two
      messages share it exactly when their positions agree modulo 2^64. */
  lemma WireNonces(d: Direction, events: seq<Event>, i: nat, j: nat)
    requires Lawful(d.cipher)
    ensures i < |Run(d, events).wire| ==> exists a: Nonce :: SealedUnder(d, Run(d, events), i, a)
    ensures forall a: Nonce, b: Nonce |
              SealedUnder(d, Run(d, events), i, a) && SealedUnder(d, Run(d, events), j, b) ::
              a == b <==> i % TWO64 == j % TWO64
  {
    RunKeepsInv(d, events);
    var s := Run(d, events);
    if i < |s.wire| {
      var nonce := EnvelopeLayout(d.cipher, d.base, NumberOf(i), s.sent[i]);
      assert SealedUnder(d, s, i, nonce);
    }
    NumberAgrees(i, j);
    hide NumberOf, Envelope, Run, NonceBits;
    forall a: Nonce, b: Nonce | SealedUnder(d, s, i, a) && SealedUnder(d, s, j, b)
      ensures a == b <==> i % TWO64 == j % TWO64
    {
      NoncesApart(d.base, a, NumberOf(i), b, NumberOf(j));
    }
  }

  lemma NumberAgrees(j: nat, k: nat)
    ensures NumberOf(j) == NumberOf(k) <==> j % TWO64 == k % TWO64
  {
    NextModulo(j);
    NextModulo(k);
  }

  lemma NextModulo(j: nat)
    ensures NumberOf(j) == if j % TWO64 == MAX64 then 0 else j % TWO64 + 1
  {}
}
