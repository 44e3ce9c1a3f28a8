/** Why connections end: read off the steps of the run, not off the state. */
module ServerEnds {
  import opened Bits
  import opened Mbap
  import opened Options
  import opened MbapWire
  import opened Gateway
  import opened History
  import opened Station
  import opened Bus
  import opened Server
  import opened ServerLocks
  import opened ServerInvariant
  import opened ServerTheorems
  import A = AnyTransport

  predicate HungUp(pc: Pc) {
    pc == Closed(PeerGone)
  }

  predicate BrokenOff(pc: Pc) {
    pc.Closed? && pc.why.SendFailed?
  }

  /** What one step of a thread does to the end of its connection. */
  predicate EndsBy(before: Pc, a: Action, after: Pc) {
    (HungUp(after) <==> a == HangUp) && (BrokenOff(after) <==> a == SendFails) && !before.Closed?
  }

  lemma ReadingEnds(s: System, c: nat, a: Action)
    requires Enabled(s, c, a) && ReadsRequest(a)
    ensures c < |s.clients| && c < |Apply(s, c, a).clients|
    ensures EndsBy(s.clients[c].pc, a, Apply(s, c, a).clients[c].pc)
  {
    hide Decode, Inc64, InjectorLocked, DropDrawn, BusLocked, Visited, BusUnlocked, CorruptionDrawn, Translated, Sent,
         SendBroken, Erased;
  }

  lemma ReplyingEnds(s: System, c: nat, a: Action)
    requires Enabled(s, c, a) && SendsReply(a)
    ensures c < |s.clients| && c < |Apply(s, c, a).clients|
    ensures EndsBy(s.clients[c].pc, a, Apply(s, c, a).clients[c].pc)
  {
    hide Encode, Answer, Dispose, CountDisposition, Received, Decoded, Entered, InjectorLocked, DropDrawn, BusLocked,
         Visited, BusUnlocked, CorruptionDrawn;
  }

  lemma ExchangingEnds(s: System, c: nat, a: Action)
    requires Enabled(s, c, a) && !a.Accept? && !ReadsRequest(a) && !SendsReply(a)
    ensures c < |s.clients| && c < |Apply(s, c, a).clients|
    ensures EndsBy(s.clients[c].pc, a, Apply(s, c, a).clients[c].pc)
  {
    hide Handle, Damage, TcpToRtu, Inc64, Received, Decoded, Entered, Translated, Sent, SendBroken, Erased;
  }

  lemma StepEnds(s: System, c: nat, a: Action)
    requires Enabled(s, c, a) && !a.Accept?
    ensures c < |s.clients| && c < |Apply(s, c, a).clients|
    ensures EndsBy(s.clients[c].pc, a, Apply(s, c, a).clients[c].pc)
  {
    hide Apply, Enabled, EndsBy;
    if ReadsRequest(a) {
      ReadingEnds(s, c, a);
    } else if SendsReply(a) {
      ReplyingEnds(s, c, a);
    } else {
      ExchangingEnds(s, c, a);
    }
  }

  // ---- runs ----

  /** The end of every connection, against the steps. */
  predicate EndsMatch(s: System, steps: seq<Step>) {
    && (forall step | step in steps :: step.client < |s.clients|)
    && forall c | 0 <= c < |s.clients| ::
         && (HungUp(s.clients[c].pc) <==> Step(c, HangUp) in steps)
         && (BrokenOff(s.clients[c].pc) <==> Step(c, SendFails) in steps)
  }

  lemma OneStepEnds(s: System, steps: seq<Step>, step: Step)
    requires EndsMatch(s, steps) && Enabled(s, step.client, step.action)
    ensures EndsMatch(Apply(s, step.client, step.action), steps + [step])
  {
    hide Apply, Enabled, Fresh;
    var c, a := step.client, step.action;
    var t := Apply(s, c, a);
    if a.Accept? {
      AcceptEnds(s, c);
      assert forall d | 0 <= d < |s.clients| :: t.clients[d] == s.clients[d];
    } else {
      StepEnds(s, c, a);
      StepTouchesOne(s, c, a);
    }
    forall d | 0 <= d < |t.clients|
      ensures HungUp(t.clients[d].pc) <==> Step(d, HangUp) in steps + [step]
      ensures BrokenOff(t.clients[d].pc) <==> Step(d, SendFails) in steps + [step]
    {
      if d < |s.clients| && d != c {
        assert t.clients[d] == s.clients[d];
      }
    }
  }

  lemma AcceptEnds(s: System, c: nat)
    requires Enabled(s, c, Accept)
    ensures c == |s.clients| && Apply(s, c, Accept).clients == s.clients + [Fresh()] && Fresh().pc == Receiving
  {
  }

  lemma {:induction false} RunEnds(faulty: bool, ids: seq<byte>, regs: u16, steps: seq<Step>)
    requires RunFrom(Start(faulty, ids, regs), steps).Some?
    ensures EndsMatch(RunFrom(Start(faulty, ids, regs), steps).value, steps)
    decreases |steps|
  {
    hide Apply, Enabled, EndsMatch;
    if steps == [] {
      NothingEnds(faulty, ids, regs);
    } else {
      var before, step := steps[..|steps| - 1], steps[|steps| - 1];
      RunEnds(faulty, ids, regs, before);
      OneStepEnds(RunFrom(Start(faulty, ids, regs), before).value, before, step);
      assert before + [step] == steps;
    }
  }

  lemma NothingEnds(faulty: bool, ids: seq<byte>, regs: u16)
    ensures EndsMatch(Start(faulty, ids, regs), [])
  {
  }

  /** A connection ends for its cause and for nothing else. It counts as left by its peer exactly when
      the peer hung up, and as broken off exactly when a send failed; and if neither happened, it is
      closed only when a bad header is all that stands in its buffer. */
  lemma ConnectionsEndForTheirCause(s: System, faulty: bool, ids: seq<byte>, regs: u16, steps: seq<Step>, c: nat)
    requires RunFrom(Start(faulty, ids, regs), steps) == Some(s) && c < |s.clients|
    ensures s.clients[c].pc == Closed(PeerGone) <==> Step(c, HangUp) in steps
    ensures s.clients[c].pc.Closed? && s.clients[c].pc.why.SendFailed? <==> Step(c, SendFails) in steps
    ensures s.clients[c].pc.Closed? && Step(c, HangUp) !in steps && Step(c, SendFails) !in steps ==>
      s.clients[c].pc.why == FramingError && BadHeader(s.clients[c].buf)
      && ParseAll(s.clients[c].input).stop != NeedMoreData
  {
    hide RunFrom, Start, Decode, BadHeader, ParseAll, OutputOk, HistoryOk, LegalLog, EncodeAll, AllLegal;
    RunEnds(faulty, ids, regs, steps);
    assert Reachable(s, faulty, ids, regs);
    ReachableClient(s, faulty, ids, regs, c);
    SegmentationIndependence(s, faulty, ids, regs, c, []);
    HeaderErrors(s.clients[c].buf);
  }

  // ---- the same over any transport ----

  predicate AnyEndsMatch(s: System, turns: seq<A.Turn>) {
    && (forall turn | turn in turns :: turn.client < |s.clients|)
    && forall c | 0 <= c < |s.clients| ::
         && (HungUp(s.clients[c].pc) <==> A.Turn(c, A.Own(HangUp)) in turns)
         && (BrokenOff(s.clients[c].pc) <==> A.Turn(c, A.Own(SendFails)) in turns)
  }

  lemma OneTurnEnds(s: System, turns: seq<A.Turn>, turn: A.Turn)
    requires AnyEndsMatch(s, turns) && A.Possible(s, turn.client, turn.move)
    ensures AnyEndsMatch(A.After(s, turn.client, turn.move), turns + [turn])
  {
    hide Apply, Enabled, Fresh;
    var c := turn.client;
    var t := A.After(s, c, turn.move);
    if turn.move.Own? {
      var a := turn.move.action;
      if a.Accept? {
        AcceptEnds(s, c);
        assert forall d | 0 <= d < |s.clients| :: t.clients[d] == s.clients[d];
      } else {
        StepEnds(s, c, a);
        StepTouchesOne(s, c, a);
      }
    }
    forall d | 0 <= d < |t.clients|
      ensures HungUp(t.clients[d].pc) <==> A.Turn(d, A.Own(HangUp)) in turns + [turn]
      ensures BrokenOff(t.clients[d].pc) <==> A.Turn(d, A.Own(SendFails)) in turns + [turn]
    {
      if d < |s.clients| && d != c {
        assert t.clients[d] == s.clients[d];
      }
    }
  }

  lemma {:induction false} AnyRunEnds(faulty: bool, ids: seq<byte>, regs: u16, turns: seq<A.Turn>)
    requires A.Run(Start(faulty, ids, regs), turns).Some?
    ensures AnyEndsMatch(A.Run(Start(faulty, ids, regs), turns).value, turns)
    decreases |turns|
  {
    hide A.After, A.Possible, AnyEndsMatch;
    if turns == [] {
      NothingEndsYet(faulty, ids, regs);
    } else {
      var before, turn := turns[..|turns| - 1], turns[|turns| - 1];
      AnyRunEnds(faulty, ids, regs, before);
      OneTurnEnds(A.Run(Start(faulty, ids, regs), before).value, before, turn);
      assert before + [turn] == turns;
    }
  }

  lemma NothingEndsYet(faulty: bool, ids: seq<byte>, regs: u16)
    ensures AnyEndsMatch(Start(faulty, ids, regs), [])
  {
  }

  /** Over any transport too a connection ends for its cause and for nothing else. */
  lemma AnyTransportEndsForTheirCause(faulty: bool, ids: seq<byte>, regs: u16, turns: seq<A.Turn>, s: System, c: nat)
    requires A.Run(Start(faulty, ids, regs), turns) == Some(s) && c < |s.clients|
    ensures s.clients[c].pc == Closed(PeerGone) <==> A.Turn(c, A.Own(HangUp)) in turns
    ensures s.clients[c].pc.Closed? && s.clients[c].pc.why.SendFailed? <==> A.Turn(c, A.Own(SendFails)) in turns
    ensures s.clients[c].pc.Closed? && A.Turn(c, A.Own(HangUp)) !in turns && A.Turn(c, A.Own(SendFails)) !in turns ==>
      s.clients[c].pc.why == FramingError && BadHeader(s.clients[c].buf)
      && ParseAll(s.clients[c].input).stop != NeedMoreData
  {
    hide A.Run, Start, Decode, BadHeader, ParseAll, OutputOk, A.Carried, EncodeAll, AllLegal;
    AnyRunEnds(faulty, ids, regs, turns);
    A.RunCarried(faulty, ids, regs, turns);
    var k := s.clients[c];
    assert A.ClientCarried(k);
    HeaderErrors(k.buf);
    InputParse(k);
    ParseStep(k.buf);
  }
}
