/** How long a thread can go on without reading: the drain loop, the scan and the partial sends end
    after a number of the thread's own steps that is known beforehand, whatever the others do. */
module ServerProgress {
  import opened Bits
  import opened Station
  import opened Bus
  import opened Mbap
  import opened Gateway
  import opened History
  import opened Server
  import opened ServerLocks
  import opened ServerInvariant
  import opened ServerClients

  /** Steps left of the request in hand, at most, over a bus of `n` slaves. */
  function Ahead(pc: Pc, n: nat): nat {
    match pc
    case Draining => 271 + n
    case Entering(_) => 270 + n
    case AwaitInjector(_) => 269 + n
    case InInjector(_) => 268 + n
    case AwaitBus(_) => 267 + n
    case Scanning(_, i) => 266 + (if i <= n then n - i else 0)
    case Scanned(_, _) => 265
    case BusReleased(_, _) => 264
    case Translating(_, _) => 263
    case Sending(_, out, sent) => 2 + (if sent <= |out| then |out| - sent else 0)
    case Receiving => 1
    case Closed(_) => 0
  }

  /** Steps left, at most, until the thread reads again or ends. */
  function Work(s: System, c: nat): nat
    requires c < |s.clients|
  {
    |s.clients[c].buf| * (272 + |s.slaves|) + Ahead(s.clients[c].pc, |s.slaves|)
  }

  lemma SlavesStay(s: System, c: nat, a: Action)
    requires Enabled(s, c, a)
    ensures |Apply(s, c, a).slaves| == |s.slaves|
  {
    hide Handle, Decode, Encode, Damage, Answer, Dispose, TcpToRtu, CountDisposition, Inc64;
  }

  /** What other threads do costs a thread nothing. */
  lemma OthersCostNothing(s: System, c: nat, a: Action, d: nat)
    requires Enabled(s, c, a) && d < |s.clients| && d != c
    ensures d < |Apply(s, c, a).clients|
    ensures Work(Apply(s, c, a), d) == Work(s, d)
  {
    hide Apply, Enabled;
    OtherClientsUntouched(s, c, a, d);
    SlavesStay(s, c, a);
  }

  // ---- one step ----

  /** The thread came closer to reading again, its buffer as it was. */
  predicate Closer(s: System, c: nat, t: System) {
    && c < |s.clients| && c < |t.clients|
    && t.clients[c].buf == s.clients[c].buf
    && Ahead(t.clients[c].pc, |s.slaves|) < Ahead(s.clients[c].pc, |s.slaves|)
  }

  lemma ReadingCloser(s: System, c: nat, a: Action)
    requires Enabled(s, c, a) && ReadsRequest(a) && !a.Receive?
    ensures Closer(s, c, Apply(s, c, a))
  {
    hide Decode, Inc64, InjectorLocked, DropDrawn, BusLocked, Visited, BusUnlocked, CorruptionDrawn, Translated, Sent,
         Erased;
  }

  lemma ExchangingCloser(s: System, c: nat, a: Action)
    requires Enabled(s, c, a) && !a.Accept? && !ReadsRequest(a) && !SendsReply(a)
    ensures Closer(s, c, Apply(s, c, a))
  {
    hide Handle, Damage, TcpToRtu, Inc64, Received, Decoded, Entered, Translated, Sent, SendBroken, Erased;
  }

  lemma SendingCloser(s: System, c: nat, a: Action)
    requires Enabled(s, c, a) && (a.Send? || a.SendFails?)
    ensures Closer(s, c, Apply(s, c, a))
  {
    hide Received, Decoded, Entered, InjectorLocked, DropDrawn, BusLocked, Visited, BusUnlocked, CorruptionDrawn;
  }

  /** The answer fits an ADU. */
  lemma TranslatingCloser(s: System, c: nat)
    requires Inv(s) && Enabled(s, c, Translate)
    ensures Closer(s, c, Translated(s, c))
  {
    hide Encode, Answer, Dispose, CountDisposition, LockOk, SlavesOk, BufferOk, OutputOk, AnswersOf, RequestsOf,
         LegalLog, WithHighBit;
    assert ClientOk(c, s.clients[c], s.bus0, s.log);
    AnswersMatchRequests(c, s.bus0, s.log);
    var answers := AnswersOf(c, s.bus0, s.log);
    assert Matches(RequestsOf(c, s.log)[|answers| - 1], answers[|answers| - 1]);
  }

  lemma ErasingFrees(s: System, c: nat)
    requires Inv(s) && Enabled(s, c, Erase)
    ensures |Erased(s, c).clients| == |s.clients| && Erased(s, c).clients[c].pc == Draining
    ensures |Erased(s, c).clients[c].buf| + 8 <= |s.clients[c].buf|
  {
    hide Decode, Encode, LockOk, SlavesOk, OutputOk, HistoryOk, LegalLog, EncodeAll, AllLegal;
    assert ClientOk(c, s.clients[c], s.bus0, s.log);
    EncodeDecode(s.clients[c].buf);
  }

  lemma {:induction false} LessBuffered(b: nat, left: nat, w: nat)
    requires left < b
    ensures left * w + w <= b * w
    decreases b
  {
    assert b * w == (b - 1) * w + w;
    if left < b - 1 {
      LessBuffered(b - 1, left, w);
    }
  }

  /** Every step of a thread but receiving uses up some of its work, and each frame takes at least 8
      bytes off its buffer. */
  lemma OwnStepsAreFinite(s: System, c: nat, a: Action)
    requires Inv(s) && Enabled(s, c, a) && !a.Accept? && !a.Receive?
    ensures c < |Apply(s, c, a).clients|
    ensures Work(Apply(s, c, a), c) < Work(s, c)
    ensures a == Erase ==> |Apply(s, c, a).clients[c].buf| + 8 <= |s.clients[c].buf|
  {
    hide Inv, Received, Decoded, Entered, InjectorLocked, DropDrawn, BusLocked, Visited, BusUnlocked, CorruptionDrawn,
         Translated, Sent, SendBroken, Erased;
    SlavesStay(s, c, a);
    if a == Erase {
      ErasingFrees(s, c);
      LessBuffered(|s.clients[c].buf|, |Apply(s, c, a).clients[c].buf|, 272 + |s.slaves|);
    } else if a == Translate {
      TranslatingCloser(s, c);
    } else if ReadsRequest(a) {
      ReadingCloser(s, c, a);
    } else if SendsReply(a) {
      SendingCloser(s, c, a);
    } else {
      ExchangingCloser(s, c, a);
    }
  }

  // ---- runs ----

  function StepsOf(c: nat, steps: seq<Step>): nat {
    if steps == [] then 0
    else StepsOf(c, steps[..|steps| - 1]) + (if steps[|steps| - 1].client == c then 1 else 0)
  }

  predicate ReceivesNothing(c: nat, steps: seq<Step>) {
    forall i | 0 <= i < |steps| :: steps[i].client == c ==> !steps[i].action.Receive?
  }

  lemma {:induction false} RunUsesWork(s: System, c: nat, steps: seq<Step>)
    requires Inv(s) && c < |s.clients| && RunFrom(s, steps).Some? && ReceivesNothing(c, steps)
    ensures var t := RunFrom(s, steps).value;
      Inv(t) && c < |t.clients| && StepsOf(c, steps) + Work(t, c) <= Work(s, c)
    decreases |steps|
  {
    hide Inv, Apply, Enabled, Work;
    if steps != [] {
      var step := steps[|steps| - 1];
      RunUsesWork(s, c, steps[..|steps| - 1]);
      var before := RunFrom(s, steps[..|steps| - 1]).value;
      InvKept(before, step.client, step.action);
      if step.client == c {
        OldClientsDoNotConnect(before, c, step.action);
        OwnStepsAreFinite(before, c, step.action);
      } else {
        OthersCostNothing(before, step.client, step.action, c);
      }
    }
  }

  lemma OldClientsDoNotConnect(s: System, c: nat, a: Action)
    requires Enabled(s, c, a) && c < |s.clients|
    ensures !a.Accept?
  {
  }

  /** Termination over runs: from any reachable state on, in any interleaving, a thread that receives
      no more bytes takes at most `Work` more steps of its own. So every request it has buffered is
      finished, its drain loop ends, and it is back at `recv` or closed, unless it waits for a lock. */
  lemma OwnStepsAreBounded(s: System, faulty: bool, ids: seq<byte>, regs: u16, c: nat, steps: seq<Step>)
    requires Reachable(s, faulty, ids, regs) && c < |s.clients|
    requires RunFrom(s, steps).Some? && ReceivesNothing(c, steps)
    ensures StepsOf(c, steps) <= Work(s, c)
  {
    hide Reachable, Inv, FreshBus, Work, ReceivesNothing, RunFrom;
    ReachableInv(s, faulty, ids, regs);
    RunUsesWork(s, c, steps);
  }
}
