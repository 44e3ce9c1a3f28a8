/** What the server can be brought to do: whatever masters send and whatever faults are drawn, there
    is a run in which every request is exchanged, answered in full, and followed by the next. */
module ServerService {
  import opened Bits
  import opened Options
  import opened Station
  import opened Bus
  import opened Mbap
  import opened Gateway
  import opened History
  import opened Server
  import opened ServerLocks
  import opened ServerInvariant
  import opened ServerClients
  import opened ServerTheorems

  /** Some run leads from `s` to `t`. */
  ghost predicate Leads(s: System, t: System) {
    exists steps: seq<Step> :: RunFrom(s, steps) == Some(t)
  }

  lemma LeadsNowhere(s: System)
    ensures Leads(s, s)
  {
    NoSteps(s);
  }

  lemma LeadsOn(s: System, t: System, c: nat, a: Action)
    requires Leads(s, t) && Enabled(t, c, a)
    ensures Leads(s, Apply(t, c, a))
  {
    hide RunFrom, Apply, Enabled;
    var steps: seq<Step> :| RunFrom(s, steps) == Some(t);
    OneStepMore(s, steps, Step(c, a));
  }

  lemma LeadsStep(s: System, c: nat, a: Action)
    requires Enabled(s, c, a)
    ensures Leads(s, Apply(s, c, a))
  {
    hide Leads, Apply, Enabled;
    LeadsNowhere(s);
    LeadsOn(s, s, c, a);
  }

  lemma {:induction false} RunLeadsOn(s: System, t: System, steps: seq<Step>)
    requires Leads(s, t) && RunFrom(t, steps).Some?
    ensures Leads(s, RunFrom(t, steps).value)
    decreases |steps|
  {
    hide Leads, Apply, Enabled;
    if steps != [] {
      var step := steps[|steps| - 1];
      RunLeadsOn(s, t, steps[..|steps| - 1]);
      LeadsOn(s, RunFrom(t, steps[..|steps| - 1]).value, step.client, step.action);
    }
  }

  lemma LeadsFurther(s: System, t: System, u: System)
    requires Leads(s, t) && Leads(t, u)
    ensures Leads(s, u)
  {
    hide RunFrom;
    var steps: seq<Step> :| RunFrom(t, steps) == Some(u);
    RunLeadsOn(s, t, steps);
  }

  lemma {:induction false} RunKeeps(s: System, steps: seq<Step>)
    requires Inv(s) && RunFrom(s, steps).Some?
    ensures var t := RunFrom(s, steps).value; Inv(t) && t.faulty == s.faulty && t.bus0 == s.bus0
    decreases |steps|
  {
    hide Inv, Apply, Enabled;
    if steps != [] {
      var step := steps[|steps| - 1];
      RunKeeps(s, steps[..|steps| - 1]);
      var before := RunFrom(s, steps[..|steps| - 1]).value;
      InvKept(before, step.client, step.action);
      BusIsConstant(before, step.client, step.action);
    }
  }

  lemma LeadsKeeps(s: System, t: System)
    requires Inv(s) && Leads(s, t)
    ensures Inv(t) && t.faulty == s.faulty && t.bus0 == s.bus0
  {
    hide Inv, RunFrom;
    var steps: seq<Step> :| RunFrom(s, steps) == Some(t);
    RunKeeps(s, steps);
  }

  /** From `s` to `t` only client `c` moved, and it is `k` now. */
  ghost predicate Moved(s: System, t: System, c: nat, k: Client) {
    Leads(s, t) && c < |s.clients| && t.clients == s.clients[c := k]
  }

  predicate LocksFree(s: System) {
    s.injectorLock == None && s.busLock == None
  }

  /** The locks and the log stay. */
  predicate SameOutside(s: System, t: System) {
    t.injectorLock == s.injectorLock && t.busLock == s.busLock && t.log == s.log
  }

  // ---- reading ----

  lemma RequestIsRead(s: System, c: nat, chunk: seq<byte>, f: MbapFrame) returns (t: System)
    requires c < |s.clients| && s.clients[c].pc == Receiving && 1 <= |chunk| <= 1024
    requires Legal(f) && s.clients[c].buf + chunk == Encode(f)
    ensures var k, job := s.clients[c], Job(f, |Encode(f)|);
      && Moved(s, t, c, k.(pc := if s.faulty then AwaitInjector(job) else AwaitBus(job),
                           buf := Encode(f), input := k.input + chunk))
      && SameOutside(s, t) && t.faulty == s.faulty && t.slaves == s.slaves
  {
    hide Decode, Encode, Legal, Inc64, Leads;
    var a := Apply(s, c, Receive(chunk));
    LeadsStep(s, c, Receive(chunk));
    DecodeEncodeIff(f, []);
    assert Encode(f) + [] == Encode(f);
    var b := Apply(a, c, DecodeNext);
    LeadsOn(s, a, c, DecodeNext);
    t := Apply(b, c, Enter);
    LeadsOn(s, b, c, Enter);
  }

  // ---- the exchange ----

  lemma {:induction false} ScanEnds(s: System, c: nat) returns (t: System, reply: Option<seq<byte>>)
    requires c < |s.clients| && s.clients[c].pc.Scanning? && s.clients[c].pc.i <= |s.slaves|
    ensures Moved(s, t, c, s.clients[c].(pc := Scanned(s.clients[c].pc.job, reply)))
    ensures SameOutside(s, t) && t.faulty == s.faulty
    decreases |s.slaves| - s.clients[c].pc.i
  {
    hide Handle, TcpToRtu, Leads;
    t := Apply(s, c, Visit);
    LeadsStep(s, c, Visit);
    if t.clients[c].pc.Scanned? {
      reply := t.clients[c].pc.reply;
    } else {
      var u := t;
      t, reply := ScanEnds(u, c);
      LeadsFurther(s, u, t);
    }
  }

  lemma BusIsUsed(s: System, c: nat) returns (t: System, reply: Option<seq<byte>>)
    requires c < |s.clients| && s.clients[c].pc.AwaitBus? && s.busLock == None
    ensures Moved(s, t, c, s.clients[c].(pc := Scanned(s.clients[c].pc.job, reply)))
    ensures t.busLock == Some(c) && t.injectorLock == s.injectorLock && t.log == s.log && t.faulty == s.faulty
  {
    hide Handle, TcpToRtu, Leads;
    var a := Apply(s, c, LockBus);
    LeadsStep(s, c, LockBus);
    t, reply := ScanEnds(a, c);
    LeadsFurther(s, a, t);
  }

  /** The faults that can hit an exchange: none without an injector, and damage only to a reply. */
  predicate Feasible(faulty: bool, bus: seq<Station>, req: MbapFrame, draw: Draw) {
    && (!faulty ==> draw == NO_FAULT)
    && (draw.drop ==> draw == Draw(true, false, 0))
    && (draw.corrupt ==> CleanReply(bus, req).Some?)
  }

  /** The exchange of `job` ended, with `draw`. */
  ghost predicate Exchanged(s: System, t: System, c: nat, job: Job, draw: Draw) {
    && LocksFree(t) && t.log == s.log + [Event(c, job.req, draw)]
    && c < |s.clients| && c < |t.clients| && t.clients[c].pc.Translating? && t.clients[c].pc.job == job
    && Moved(s, t, c, s.clients[c].(pc := t.clients[c].pc))
  }

  lemma PlainExchange(s: System, c: nat) returns (t: System)
    requires LocksFree(s) && !s.faulty && c < |s.clients| && s.clients[c].pc.AwaitBus?
    ensures Exchanged(s, t, c, s.clients[c].pc.job, NO_FAULT)
  {
    hide Leads, Damage;
    var a, reply := BusIsUsed(s, c);
    t := Apply(a, c, UnlockBus);
    LeadsOn(s, a, c, UnlockBus);
  }

  lemma DroppedExchange(s: System, c: nat) returns (t: System)
    requires LocksFree(s) && s.faulty && c < |s.clients| && s.clients[c].pc.AwaitInjector?
    ensures Exchanged(s, t, c, s.clients[c].pc.job, Draw(true, false, 0))
  {
    hide Leads, Inc64;
    var a := Apply(s, c, LockInjector);
    LeadsStep(s, c, LockInjector);
    t := Apply(a, c, DrawDrop(true));
    LeadsOn(s, a, c, DrawDrop(true));
  }

  /** The reply crosses the injector on its way back. */
  lemma ReplyIsReturned(s: System, c: nat, draw: Draw) returns (t: System)
    requires s.faulty && c < |s.clients| && s.clients[c].pc.Scanned? && !draw.drop
    requires draw.corrupt ==> s.clients[c].pc.reply.Some?
    ensures LocksFree(t) && t.log == s.log + [Event(c, s.clients[c].pc.job.req, draw)]
    ensures c < |t.clients| && t.clients[c].pc.Translating? && t.clients[c].pc.job == s.clients[c].pc.job
    ensures Moved(s, t, c, s.clients[c].(pc := t.clients[c].pc))
  {
    hide Leads, Inc64, Damage;
    var e := Apply(s, c, UnlockBus);
    LeadsStep(s, c, UnlockBus);
    var action := DrawCorrupt(draw.corrupt, draw.pick);
    t := Apply(e, c, action);
    LeadsOn(s, e, c, action);
  }

  lemma InjectorIsPassed(s: System, c: nat) returns (t: System)
    requires LocksFree(s) && s.faulty && c < |s.clients| && s.clients[c].pc.AwaitInjector?
    ensures Moved(s, t, c, s.clients[c].(pc := AwaitBus(s.clients[c].pc.job)))
    ensures t.busLock == None && t.log == s.log && t.faulty == s.faulty
  {
    hide Leads, Inc64;
    var a := Apply(s, c, LockInjector);
    LeadsStep(s, c, LockInjector);
    t := Apply(a, c, DrawDrop(false));
    LeadsOn(s, a, c, DrawDrop(false));
  }

  lemma InjectedExchange(s: System, c: nat, draw: Draw) returns (t: System)
    requires LocksFree(s) && s.faulty && c < |s.clients| && s.clients[c].pc.AwaitInjector?
    requires Inv(s) && !draw.drop
    requires Feasible(s.faulty, BusAfter(s.bus0, s.log), s.clients[c].pc.job.req, draw)
    ensures Exchanged(s, t, c, s.clients[c].pc.job, draw)
  {
    hide Leads, Inv, BusAfter, CleanReply;
    var b := InjectorIsPassed(s, c);
    var d, reply := BusIsUsed(b, c);
    LeadsFurther(s, b, d);
    LeadsKeeps(s, d);
    HeldReply(d, c);
    t := ReplyIsReturned(d, c, draw);
    LeadsFurther(s, d, t);
  }

  lemma HeldReply(s: System, c: nat)
    requires Inv(s) && c < |s.clients| && s.clients[c].pc.Scanned?
    ensures s.clients[c].pc.reply == CleanReply(BusAfter(s.bus0, s.log), s.clients[c].pc.job.req)
  {
    hide LockOk, SlavesOk, ClientsOk, CleanReply, BusAfter, Scan, TcpToRtu;
    HeldReplyIsClean(s, c);
  }

  lemma RequestIsExchanged(s: System, c: nat, draw: Draw) returns (t: System)
    requires Inv(s) && LocksFree(s) && c < |s.clients|
    requires if s.faulty then s.clients[c].pc.AwaitInjector? else s.clients[c].pc.AwaitBus?
    requires Feasible(s.faulty, BusAfter(s.bus0, s.log), s.clients[c].pc.job.req, draw)
    ensures Exchanged(s, t, c, s.clients[c].pc.job, draw)
  {
    hide Inv, Exchanged, BusAfter, CleanReply;
    if !s.faulty {
      t := PlainExchange(s, c);
    } else if draw.drop {
      t := DroppedExchange(s, c);
    } else {
      t := InjectedExchange(s, c, draw);
    }
  }

  // ---- the answer ----

  lemma RequestIsAnswered(s: System, c: nat) returns (t: System)
    requires LocksFree(s) && c < |s.clients| && s.clients[c].pc.Translating? && s.clients[c].pc.job.req.pdu != []
    requires s.clients[c].buf == Encode(s.clients[c].pc.job.req)
    requires s.clients[c].pc.job.consumed == |s.clients[c].buf|
    ensures var k := s.clients[c];
      var rsp := Answer(k.pc.job.req, k.pc.reply);
      && Moved(s, t, c, k.(pc := Receiving, buf := [], handled := k.handled + [k.pc.job.req],
                           responses := k.responses + [rsp], output := k.output + Encode(rsp)))
      && SameOutside(s, t)
  {
    hide Leads, Inc64, Encode, Decode, Answer, Dispose, CountDisposition;
    var k := s.clients[c];
    var rsp := Answer(k.pc.job.req, k.pc.reply);
    EncodedIsLong(rsp);
    var a := Apply(s, c, Translate);
    LeadsStep(s, c, Translate);
    var b := Apply(a, c, Send(|Encode(rsp)|));
    LeadsOn(s, a, c, Send(|Encode(rsp)|));
    assert Encode(rsp)[0..0 + |Encode(rsp)|] == Encode(rsp);
    var d := Apply(b, c, Erase);
    LeadsOn(s, b, c, Erase);
    assert k.buf[k.pc.job.consumed..] == [];
    NothingYet();
    t := Apply(d, c, DecodeNext);
    LeadsOn(s, d, c, DecodeNext);
  }

  lemma EncodedIsLong(f: MbapFrame)
    ensures |Encode(f)| >= 7
  {
  }

  // ---- one request ----

  /** Every request can be served. From any state of the invariant in which nobody holds a lock and a
      master waits at `recv`, whatever the rest of its next frame and whatever fault may hit the
      exchange, a run leads to where the request is logged with that fault, its answer is sent in full,
      the master waits at `recv` again, and no other client has moved. */
  lemma RequestIsServed(s: System, c: nat, chunk: seq<byte>, f: MbapFrame, draw: Draw) returns (t: System)
    requires Inv(s) && LocksFree(s) && c < |s.clients| && s.clients[c].pc == Receiving
    requires 1 <= |chunk| <= 1024 && Legal(f) && s.clients[c].buf + chunk == Encode(f)
    requires Feasible(s.faulty, BusAfter(s.bus0, s.log), f, draw)
    ensures LegalLog(s.log) && Inv(t) && LocksFree(t) && t.log == s.log + [Event(c, f, draw)]
    ensures t.faulty == s.faulty && t.bus0 == s.bus0
    ensures var k, rsp := s.clients[c], Answer(f, ReplyAfter(s.bus0, s.log, Event(c, f, draw)));
      Moved(s, t, c, k.(buf := [], input := k.input + chunk, handled := k.handled + [f],
                        responses := k.responses + [rsp], output := k.output + Encode(rsp)))
  {
    hide Inv, Leads, Encode, Legal, BusAfter, Feasible, Answer, ReplyAfter, LegalLog;
    var e := Event(c, f, draw);
    var a := RequestIsRead(s, c, chunk, f);
    LeadsKeeps(s, a);
    var b := RequestIsExchanged(a, c, draw);
    LeadsFurther(s, a, b);
    LeadsKeeps(s, b);
    TranslatesWhatCameBack(b, c, s.log, e);
    t := RequestIsAnswered(b, c);
    LeadsFurther(s, b, t);
    LeadsKeeps(s, t);
  }

  /** The reply in hand is what the last event says came back. */
  lemma TranslatesWhatCameBack(s: System, c: nat, before: seq<Event>, e: Event)
    requires Inv(s) && c < |s.clients| && s.clients[c].pc.Translating?
    requires s.log == before + [e] && e.client == c && s.clients[c].pc.job.req == e.req
    ensures LegalLog(before) && Legal(e.req) && e.req.pdu != []
    ensures Answer(s.clients[c].pc.job.req, s.clients[c].pc.reply) == Answer(e.req, ReplyAfter(s.bus0, before, e))
  {
    hide LockOk, SlavesOk, BufferOk, OutputOk, RequestsOf, AnswersOf, Answer, ReplyAfter, Legal;
    LastOf(before, e);
    assert ClientOk(c, s.clients[c], s.bus0, s.log);
    OneMoreEvent(c, s.bus0, before, e);
    var x, y := Answer(s.clients[c].pc.job.req, s.clients[c].pc.reply), Answer(e.req, ReplyAfter(s.bus0, before, e));
    var answers := AnswersOf(c, s.bus0, s.log);
    assert answers == s.clients[c].responses + [x] == AnswersOf(c, s.bus0, before) + [y];
    assert answers[|answers| - 1] == x && answers[|answers| - 1] == y;
  }

  // ---- every sequence of requests ----

  /** Every event of the log is legal, of a connected master, and hit by a fault that can hit it. */
  ghost predicate CanHappen(faulty: bool, bus: seq<Station>, n: nat, log: seq<Event>) {
    && LegalLog(log) && KnownClients(log, n)
    && forall j | 0 <= j < |log| :: Feasible(faulty, BusAfter(bus, log[..j]), log[j].req, log[j].draw)
  }

  /** The master waits at `recv` with nothing buffered; all its requests are handled and all its
      answers delivered. */
  predicate ClientServed(k: Client, c: nat, bus: seq<Station>, log: seq<Event>)
    requires LegalLog(log)
  {
    && k.pc == Receiving && k.buf == []
    && k.handled == RequestsOf(c, log)
    && k.responses == AnswersOf(c, bus, log)
    && k.output == EncodeAll(AnswersOf(c, bus, log))
  }

  predicate AllServed(s: System, n: nat, bus: seq<Station>, log: seq<Event>)
    requires LegalLog(log)
  {
    && LocksFree(s) && s.log == log && |s.clients| == n && s.bus0 == bus
    && forall c | 0 <= c < n :: ClientServed(s.clients[c], c, bus, log)
  }

  lemma {:induction false} MastersConnect(faulty: bool, ids: seq<byte>, regs: u16, n: nat) returns (s: System)
    ensures Leads(Start(faulty, ids, regs), s)
    ensures LocksFree(s) && s.log == [] && |s.clients| == n && forall c | 0 <= c < n :: s.clients[c] == Fresh()
    decreases n
  {
    hide Leads, FreshBus;
    if n == 0 {
      s := Start(faulty, ids, regs);
      LeadsNowhere(s);
    } else {
      var before := MastersConnect(faulty, ids, regs, n - 1);
      s := Apply(before, n - 1, Accept);
      LeadsOn(Start(faulty, ids, regs), before, n - 1, Accept);
    }
  }

  /** Every sequential run is a run of the server: any log that can happen is the log of a reachable
      state in which every master has had all its requests handled and all its answers in full. */
  lemma {:induction false} EverySequentialRunIsPossible(
    faulty: bool, ids: seq<byte>, regs: u16, n: nat, log: seq<Event>)
    returns (s: System)
    requires CanHappen(faulty, FreshBus(ids, regs), n, log)
    ensures Leads(Start(faulty, ids, regs), s) && Reachable(s, faulty, ids, regs)
    ensures AllServed(s, n, FreshBus(ids, regs), log)
    decreases |log|
  {
    hide FreshBus, Start, RunFrom, Inv, Feasible, BusAfter, Encode, Legal, AnswersOf, RequestsOf, EncodeAll;
    var start, bus := Start(faulty, ids, regs), FreshBus(ids, regs);
    StartsSound(faulty, ids, regs);
    if log == [] {
      s := MastersConnect(faulty, ids, regs, n);
      LeadsKeeps(start, s);
      NothingLogged(bus);
      EncodeAllNone();
    } else {
      var before, e := log[..|log| - 1], log[|log| - 1];
      assert log == before + [e];
      PrefixCanHappen(faulty, bus, n, before, e);
      var r := EverySequentialRunIsPossible(faulty, ids, regs, n, before);
      LeadsKeeps(start, r);
      s := NextIsServed(r, n, bus, before, e);
      LeadsFurther(start, r, s);
    }
  }

  lemma NextIsServed(r: System, n: nat, bus: seq<Station>, before: seq<Event>, e: Event) returns (s: System)
    requires LegalLog(before) && Legal(e.req) && e.client < n && Inv(r) && r.bus0 == bus
    requires AllServed(r, n, bus, before) && Feasible(r.faulty, BusAfter(bus, before), e.req, e.draw)
    ensures LegalLog(before + [e]) && Leads(r, s) && AllServed(s, n, bus, before + [e])
  {
    hide Inv, Feasible, BusAfter, Encode, Legal, LegalLog, AnswersOf, RequestsOf, EncodeAll, Leads, Answer, ReplyAfter;
    LastOf(before, e);
    assert ClientServed(r.clients[e.client], e.client, bus, before);
    ShortEnough(e.req);
    assert [] + Encode(e.req) == Encode(e.req);
    s := RequestIsServed(r, e.client, Encode(e.req), e.req, e.draw);
    OneMoreServed(r, s, n, bus, before, e, s.clients[e.client]);
  }

  lemma StartsSound(faulty: bool, ids: seq<byte>, regs: u16)
    ensures var s := Start(faulty, ids, regs); Inv(s) && s.faulty == faulty && s.bus0 == FreshBus(ids, regs)
  {
    hide FreshBus, Inv;
    InvInitially(faulty, ids, regs);
  }

  lemma NothingLogged(bus: seq<Station>)
    ensures forall c: nat :: RequestsOf(c, []) == [] && AnswersOf(c, bus, []) == []
  {
  }

  lemma ShortEnough(f: MbapFrame)
    requires Legal(f)
    ensures 8 <= |Encode(f)| <= 260
  {
  }

  lemma PrefixCanHappen(faulty: bool, bus: seq<Station>, n: nat, before: seq<Event>, e: Event)
    requires CanHappen(faulty, bus, n, before + [e])
    ensures CanHappen(faulty, bus, n, before) && Legal(e.req) && e.client < n
    ensures Feasible(faulty, BusAfter(bus, before), e.req, e.draw)
  {
    hide Feasible, BusAfter, Legal;
    var log := before + [e];
    LastOf(before, e);
    assert log[|before|] in log;
    assert forall x | x in before :: x in log;
    assert log[..|before|] == before;
    forall j | 0 <= j < |before| ensures Feasible(faulty, BusAfter(bus, before[..j]), before[j].req, before[j].draw) {
      assert log[..j] == before[..j] && log[j] == before[j];
    }
  }

  /** One more request handled and answered. */
  predicate AnswerAdded(k: Client, l: Client, f: MbapFrame, rsp: MbapFrame) {
    && l.pc == k.pc && l.buf == [] && l.handled == k.handled + [f]
    && l.responses == k.responses + [rsp] && l.output == k.output + Encode(rsp)
  }

  lemma AnsweredOnceMore(k: Client, l: Client, bus: seq<Station>, before: seq<Event>, e: Event)
    requires LegalLog(before) && Legal(e.req) && LegalLog(before + [e])
    requires ClientServed(k, e.client, bus, before)
    requires AnswerAdded(k, l, e.req, Answer(e.req, ReplyAfter(bus, before, e)))
    ensures ClientServed(l, e.client, bus, before + [e])
  {
    hide Encode, EncodeAll, LegalLog, AnswersOf, RequestsOf, Answer, ReplyAfter;
    OneMoreEvent(e.client, bus, before, e);
    EncodeAllOneMore(AnswersOf(e.client, bus, before), Answer(e.req, ReplyAfter(bus, before, e)));
  }

  lemma StillServed(k: Client, c: nat, bus: seq<Station>, before: seq<Event>, e: Event)
    requires LegalLog(before) && Legal(e.req) && LegalLog(before + [e])
    requires ClientServed(k, c, bus, before) && e.client != c
    ensures ClientServed(k, c, bus, before + [e])
  {
    hide EncodeAll, Legal, LegalLog, AnswersOf, RequestsOf, Answer, ReplyAfter;
    OneMoreEvent(c, bus, before, e);
  }

  lemma OneMoreServed(r: System, s: System, n: nat, bus: seq<Station>, before: seq<Event>, e: Event, l: Client)
    requires e.client < n && LocksFree(s) && s.log == before + [e] && s.bus0 == bus
    requires LegalLog(before) && Legal(e.req) && LegalLog(before + [e])
    requires AllServed(r, n, bus, before) && s.clients == r.clients[e.client := l]
    requires AnswerAdded(r.clients[e.client], l, e.req, Answer(e.req, ReplyAfter(bus, before, e)))
    ensures AllServed(s, n, bus, before + [e])
  {
    hide Legal, LegalLog, ClientServed, AnswerAdded, Answer, ReplyAfter;
    forall c | 0 <= c < n ensures ClientServed(s.clients[c], c, bus, before + [e]) {
      if c == e.client {
        AnsweredOnceMore(r.clients[c], l, bus, before, e);
      } else {
        StillServed(s.clients[c], c, bus, before, e);
      }
    }
  }
}
