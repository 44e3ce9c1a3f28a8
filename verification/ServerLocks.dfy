/** Lock discipline of the concurrent server. */
module ServerLocks {
  import opened Bits
  import opened Options
  import opened Station
  import opened Bus
  import opened Mbap
  import opened Gateway
  import opened Server

  predicate HoldsInjector(faulty: bool, pc: Pc) {
    pc.InInjector? || pc.BusReleased? || (faulty && (pc.AwaitBus? || pc.Scanning? || pc.Scanned?))
  }

  predicate HoldsBus(pc: Pc) {
    pc.Scanning? || pc.Scanned?
  }

  /** Without an injector its program points are never reached. */
  predicate PossiblePc(faulty: bool, pc: Pc) {
    pc.AwaitInjector? || pc.InInjector? || pc.BusReleased? ==> faulty
  }

  predicate LockOk(s: System) {
    && (forall c | 0 <= c < |s.clients| ::
        var pc := s.clients[c].pc;
        && PossiblePc(s.faulty, pc)
        && (HoldsInjector(s.faulty, pc) ==> s.injectorLock == Some(c))
        && (HoldsBus(pc) ==> s.busLock == Some(c)))
    && (s.injectorLock.Some? ==>
        s.injectorLock.value < |s.clients| && HoldsInjector(s.faulty, s.clients[s.injectorLock.value].pc))
    && (s.busLock.Some? ==> s.busLock.value < |s.clients| && HoldsBus(s.clients[s.busLock.value].pc))
  }

  /** A lock stays as it is, or the client takes it while it is free, or gives its own back. */
  predicate LockMoves(before: Option<nat>, after: Option<nat>, c: nat, held: bool, holds: bool) {
    || (after == before && holds == held)
    || (before == None && after == Some(c) && holds)
    || (before == Some(c) && after == None && held && !holds)
  }

  /** What `LockOk` says about one client. */
  predicate ClientLocks(s: System, c: nat)
    requires c < |s.clients|
  {
    var pc := s.clients[c].pc;
    && PossiblePc(s.faulty, pc)
    && (HoldsInjector(s.faulty, pc) <==> s.injectorLock == Some(c))
    && (HoldsBus(pc) <==> s.busLock == Some(c))
  }

  lemma StepTouchesOne(s: System, c: nat, a: Action)
    requires Enabled(s, c, a) && !a.Accept?
    ensures |Apply(s, c, a).clients| == |s.clients| && Apply(s, c, a).faulty == s.faulty
    ensures Apply(s, c, a).clients == s.clients[c := Apply(s, c, a).clients[c]]
  {
    hide Handle, Decode, Encode, Damage, Answer, Dispose, TcpToRtu, CountDisposition, Inc64;
  }

  /** The locks around a step of `c`. */
  predicate StepLocks(s: System, c: nat, t: System) {
    && c < |s.clients| == |t.clients|
    && PossiblePc(s.faulty, t.clients[c].pc)
    && LockMoves(s.injectorLock, t.injectorLock, c,
                 HoldsInjector(s.faulty, s.clients[c].pc), HoldsInjector(s.faulty, t.clients[c].pc))
    && LockMoves(s.busLock, t.busLock, c, HoldsBus(s.clients[c].pc), HoldsBus(t.clients[c].pc))
  }

  // Most actions touch neither lock.

  predicate ReadsRequest(a: Action) {
    a.Receive? || a.HangUp? || a.DecodeNext? || a.Enter?
  }

  predicate SendsReply(a: Action) {
    a.Translate? || a.Send? || a.SendFails? || a.Erase?
  }

  lemma DecodingMoves(s: System, c: nat)
    requires Enabled(s, c, DecodeNext) && ClientLocks(s, c)
    ensures StepLocks(s, c, Decoded(s, c))
  {
    hide Decode, Inc64;
  }

  lemma ReadingMoves(s: System, c: nat, a: Action)
    requires Enabled(s, c, a) && ReadsRequest(a) && ClientLocks(s, c)
    ensures StepLocks(s, c, Apply(s, c, a))
  {
    hide Decoded, Inc64, InjectorLocked, DropDrawn, BusLocked, Visited, BusUnlocked, CorruptionDrawn, Translated,
         Sent, SendBroken, Erased;
    if a.DecodeNext? {
      DecodingMoves(s, c);
    }
  }

  lemma ReplyingMoves(s: System, c: nat, a: Action)
    requires Enabled(s, c, a) && SendsReply(a) && ClientLocks(s, c)
    ensures StepLocks(s, c, Apply(s, c, a))
  {
    hide Encode, Answer, Dispose, CountDisposition, Received, Decoded, Entered, InjectorLocked, DropDrawn, BusLocked,
         Visited, BusUnlocked, CorruptionDrawn;
  }

  lemma InjectorMoves(s: System, c: nat, a: Action)
    requires Enabled(s, c, a) && (a.LockInjector? || a.DrawDrop? || a.DrawCorrupt?) && ClientLocks(s, c)
    ensures StepLocks(s, c, Apply(s, c, a))
  {
    hide Handle, Decode, Encode, Damage, Answer, Dispose, TcpToRtu, CountDisposition, Inc64;
  }

  lemma BusMoves(s: System, c: nat, a: Action)
    requires Enabled(s, c, a) && (a.LockBus? || a.Visit? || a.UnlockBus?) && ClientLocks(s, c)
    ensures StepLocks(s, c, Apply(s, c, a))
  {
    hide Handle, Decode, Encode, Damage, Answer, Dispose, TcpToRtu, CountDisposition, Inc64;
  }

  lemma StepMovesLocks(s: System, c: nat, a: Action)
    requires Enabled(s, c, a) && !a.Accept? && ClientLocks(s, c)
    ensures StepLocks(s, c, Apply(s, c, a))
  {
    hide Apply, Enabled, StepLocks, ClientLocks;
    if ReadsRequest(a) {
      ReadingMoves(s, c, a);
    } else if SendsReply(a) {
      ReplyingMoves(s, c, a);
    } else if a.LockInjector? || a.DrawDrop? || a.DrawCorrupt? {
      InjectorMoves(s, c, a);
    } else {
      BusMoves(s, c, a);
    }
  }

  /** Every step keeps the locks and the program counters in agreement. */
  lemma LocksKept(s: System, c: nat, a: Action)
    requires LockOk(s) && Enabled(s, c, a)
    ensures LockOk(Apply(s, c, a))
  {
    hide Apply, HoldsInjector, HoldsBus, PossiblePc;
    if !a.Accept? {
      StepTouchesOne(s, c, a);
      StepMovesLocks(s, c, a);
      MovedLocksAgree(s, Apply(s, c, a), c);
    } else {
      NewClientHoldsNothing(s, c);
    }
  }

  lemma NewClientHoldsNothing(s: System, c: nat)
    requires LockOk(s) && c == |s.clients|
    ensures LockOk(Apply(s, c, Accept))
  {
    var t := s.clients + [Fresh()];
    assert forall d | 0 <= d < |s.clients| :: t[d] == s.clients[d];
  }

  lemma MovedLocksAgree(s: System, t: System, c: nat)
    requires LockOk(s) && StepLocks(s, c, t) && t.clients == s.clients[c := t.clients[c]] && t.faulty == s.faulty
    ensures LockOk(t)
  {
    hide HoldsInjector, HoldsBus, PossiblePc;
    assert forall d | 0 <= d < |s.clients| && d != c :: t.clients[d] == s.clients[d];
  }

  /** Slaves change only in a step of the client that holds the bus lock, and one slave at a time. */
  lemma SlavesChangeOnlyUnderBusLock(s: System, c: nat, a: Action)
    requires LockOk(s) && Enabled(s, c, a)
    ensures Apply(s, c, a).slaves != s.slaves ==>
      && s.busLock == Some(c) && a == Visit
      && exists i | 0 <= i < |s.slaves| :: Apply(s, c, a).slaves == s.slaves[i := Apply(s, c, a).slaves[i]]
  {
    hide Handle, Decode, Encode, Damage, Answer, Dispose, TcpToRtu, CountDisposition, Inc64;
    if a == Visit {
      var i := s.clients[c].pc.i;
      if i < |s.slaves| {
        assert Apply(s, c, a).slaves == s.slaves[i := Apply(s, c, a).slaves[i]];
      }
    }
  }

  /** A step of one client leaves every other client as it was: its buffer, its pending request and
      everything it has been sent. */
  lemma OtherClientsUntouched(s: System, c: nat, a: Action, d: nat)
    requires Enabled(s, c, a) && d < |s.clients| && d != c
    ensures d < |Apply(s, c, a).clients| && Apply(s, c, a).clients[d] == s.clients[d]
  {
    hide Handle, Decode, Encode, Damage, Answer, Dispose, TcpToRtu, CountDisposition, Inc64;
  }

  predicate WantsLock(s: System, c: nat)
    requires c < |s.clients|
  {
    || (s.clients[c].pc.AwaitInjector? && s.injectorLock.Some?)
    || (s.clients[c].pc.AwaitBus? && s.busLock.Some?)
  }

  /** An action of `c` that its program counter calls for. */
  function NextAction(pc: Pc): Action {
    match pc
    case Receiving => HangUp
    case Draining => DecodeNext
    case Entering(_) => Enter
    case AwaitInjector(_) => LockInjector
    case InInjector(_) => DrawDrop(false)
    case AwaitBus(_) => LockBus
    case Scanning(_, _) => Visit
    case Scanned(_, _) => UnlockBus
    case BusReleased(_, _) => DrawCorrupt(false, 0)
    case Translating(_, _) => Translate
    case Sending(_, out, sent) => if sent < |out| then Send(1) else Erase
    case Closed(_) => HangUp
  }

  /** No deadlock: when a client waits for a lock, the one that holds that lock can step. */
  lemma SomeHolderCanStep(s: System, c: nat) returns (d: nat)
    requires LockOk(s) && c < |s.clients| && WantsLock(s, c)
    ensures d < |s.clients|
    ensures s.clients[c].pc.AwaitInjector? ==> s.injectorLock == Some(d)
    ensures s.clients[c].pc.AwaitBus? ==> s.busLock == Some(d)
    ensures d != c && Enabled(s, d, NextAction(s.clients[d].pc))
  {
    d := if s.busLock.Some? then s.busLock.value else s.injectorLock.value;
  }
}
