/** The bus scan refines direct dispatch: with distinct unit ids, trying the slaves in order is the
    same as looking the addressed one up. */
module Dispatch {
  import opened Bits
  import opened Options
  import opened Crc
  import opened Station
  import opened StationLemmas
  import opened Bus

  predicate Distinct(slaves: seq<Station>) {
    forall i, j | 0 <= i < j < |slaves| :: slaves[i].addr != slaves[j].addr
  }

  /** The bus without its order. */
  function ByUnit(slaves: seq<Station>): map<byte, Station> {
    if slaves == [] then map[] else ByUnit(slaves[1..])[slaves[0].addr := slaves[0]]
  }

  /** Frames every slave takes notice of: broadcasts, and frames no slave can trust. */
  predicate ForEveryone(req: seq<byte>) {
    !Intact(req) || IsBroadcast(req)
  }

  /** Direct dispatch: everyone hears a broadcast or a damaged frame and nobody answers; any other
      frame concerns only the slave it names. */
  function Direct(units: map<byte, Station>, req: seq<byte>): (map<byte, Station>, Option<seq<byte>>) {
    if ForEveryone(req) then (map a | a in units :: Handle(units[a], req).0, None)
    else if req[0] !in units then (units, None)
    else
      var (s, o) := Handle(units[req[0]], req);
      (units[req[0] := s], if o.Respond? then Some(o.frame) else None)
  }

  lemma {:induction false} ByUnitHolds(slaves: seq<Station>, k: nat)
    requires Distinct(slaves) && k < |slaves|
    ensures slaves[k].addr in ByUnit(slaves) && ByUnit(slaves)[slaves[k].addr] == slaves[k]
    decreases k
  {
    if k > 0 {
      assert slaves[k].addr != slaves[0].addr;
      ByUnitHolds(slaves[1..], k - 1);
    }
  }

  lemma {:induction false} AbsentUnit(slaves: seq<Station>, a: byte)
    requires forall k | 0 <= k < |slaves| :: slaves[k].addr != a
    ensures a !in ByUnit(slaves)
    decreases |slaves|
  {
    if slaves != [] {
      AbsentUnit(slaves[1..], a);
    }
  }

  /** What one slave does with frames that are not for it alone. */
  lemma Bystander(s: Station, req: seq<byte>)
    ensures Handle(s, req).0.addr == s.addr
    ensures ForEveryone(req) ==> !Handle(s, req).1.Respond?
    ensures !ForEveryone(req) && req[0] != s.addr ==> Handle(s, req) == (s, Silent)
  {
    hide Understand, ReplyBody, Crc16, Sealed, Inc;
  }

  /** With distinct unit ids the scan gives the reply and the final state of direct dispatch. */
  lemma {:induction false} ScanIsDirect(slaves: seq<Station>, req: seq<byte>)
    requires Distinct(slaves)
    ensures ByUnit(Scan(slaves, req).0) == Direct(ByUnit(slaves), req).0
    ensures Scan(slaves, req).1 == Direct(ByUnit(slaves), req).1
    decreases |slaves|
  {
    hide Handle, ForEveryone, Intact;
    if slaves != [] {
      var (s, o) := Handle(slaves[0], req);
      Bystander(slaves[0], req);
      AbsentUnit(slaves[1..], slaves[0].addr);
      if o.Respond? {
        assert ([s] + slaves[1..])[1..] == slaves[1..];
      } else {
        ScanIsDirect(slaves[1..], req);
        var rest := Scan(slaves[1..], req).0;
        assert ([s] + rest)[1..] == rest;
      }
    }
  }

  /** The order of the slaves does not matter. */
  lemma ScanIgnoresOrder(a: seq<Station>, b: seq<Station>, req: seq<byte>)
    requires Distinct(a) && Distinct(b) && ByUnit(a) == ByUnit(b)
    ensures Scan(a, req).1 == Scan(b, req).1
    ensures ByUnit(Scan(a, req).0) == ByUnit(Scan(b, req).0)
  {
    ScanIsDirect(a, req);
    ScanIsDirect(b, req);
  }

  lemma {:induction false} ScanKeepsUnits(slaves: seq<Station>, req: seq<byte>)
    ensures |Scan(slaves, req).0| == |slaves|
    ensures forall k | 0 <= k < |slaves| ::
      && Scan(slaves, req).0[k].addr == slaves[k].addr
      && |Scan(slaves, req).0[k].holding| == |slaves[k].holding|
    decreases |slaves|
  {
    hide Handle;
    if slaves != [] {
      OnlyAcceptedWritesChange(slaves[0], req);
      ScanKeepsUnits(slaves[1..], req);
    }
  }

  /** Distinct unit ids stay distinct. */
  lemma ScanKeepsDistinct(slaves: seq<Station>, req: seq<byte>)
    requires Distinct(slaves)
    ensures Distinct(Scan(slaves, req).0)
  {
    hide Scan;
    ScanKeepsUnits(slaves, req);
  }

  /** Slave by slave: after one exchange each slave is as it would be had the frame been handed to it
      alone, and a slave that an intact unicast frame does not name keeps its whole state. */
  lemma ScanIsPointwise(slaves: seq<Station>, req: seq<byte>, k: nat)
    requires Distinct(slaves) && k < |slaves|
    ensures |Scan(slaves, req).0| == |slaves|
    ensures Scan(slaves, req).0[k] == Handle(slaves[k], req).0
    ensures !ForEveryone(req) && req[0] != slaves[k].addr ==> Scan(slaves, req).0[k] == slaves[k]
  {
    hide Handle, Scan, ByUnit, ForEveryone, Distinct;
    var after := Scan(slaves, req).0;
    ScanKeepsUnits(slaves, req);
    ScanKeepsDistinct(slaves, req);
    ScanIsDirect(slaves, req);
    ByUnitHolds(slaves, k);
    ByUnitHolds(after, k);
    Bystander(slaves[k], req);
  }
}
