/** What one Modbus RTU slave does with a received frame, as a function of its state. */
module Station {
  import opened Bits
  import opened Crc

  const ADDR_BROADCAST: byte := 0
  const ADU_MAX: nat := 256
  const ADU_MIN: nat := 4

  const FC_READ_HOLDING: byte := 0x03
  const FC_WRITE_SINGLE: byte := 0x06
  const FC_WRITE_MULTIPLE: byte := 0x10

  const EX_ILLEGAL_FUNCTION: byte := 0x01
  const EX_ILLEGAL_ADDRESS: byte := 0x02
  const EX_ILLEGAL_VALUE: byte := 0x03

  const READ_QTY_MAX: nat := 125
  const WRITE_MULTI_QTY_MAX: nat := 123

  type u32 = x: int | 0 <= x < U32

  /** The diagnostic counters; they wrap at 32 bits. */
  datatype Counters = Counters(framesOk: u32, crcErr: u32, lenErr: u32, exceptions: u32, responses: u32, broadcast: u32)

  datatype Station = Station(addr: byte, holding: seq<u16>, cnt: Counters)

  datatype Outcome = Respond(frame: seq<byte>) | Silent | BadCrc | BadLength

  function Inc(x: u32): u32 {
    if x + 1 < U32 then x + 1 else 0
  }

  const ZERO_COUNTERS: Counters := Counters(0, 0, 0, 0, 0, 0)

  // ---- judging a frame ----

  /** Structural length and CRC: what makes a frame trustworthy to every slave on the bus. */
  predicate Structured(req: seq<byte>) {
    ADU_MIN <= |req| <= ADU_MAX
  }

  predicate Sealed(req: seq<byte>)
    requires |req| >= 2
  {
    Crc16(req[..|req| - 2]) == Word(req[|req| - 1], req[|req| - 2])
  }

  predicate Intact(req: seq<byte>) {
    Structured(req) && Sealed(req)
  }

  predicate IsBroadcast(req: seq<byte>)
    requires |req| > 0
  {
    req[0] == ADDR_BROADCAST
  }

  predicate Addressed(addr: byte, req: seq<byte>)
    requires |req| > 0
  {
    IsBroadcast(req) || req[0] == addr
  }

  /** What an intact, addressed request asks of a slave with `count` registers. */
  datatype Request =
    | WrongLength
    | Illegal(code: byte)
    | Read(start: nat, qty: nat)
    | Write(start: nat, values: seq<u16>)

  /** `qty` big-endian words, starting at byte `from`. */
  function WordsAt(data: seq<byte>, from: nat, qty: nat): (words: seq<u16>)
    requires from + 2 * qty <= |data|
    ensures |words| == qty
  {
    seq(qty, i requires 0 <= i < qty => Word(data[from + 2 * i], data[from + 2 * i + 1]))
  }

  /** The words as big-endian bytes. */
  function BytesOf(words: seq<u16>): (data: seq<byte>)
    ensures |data| == 2 * |words|
  {
    if words == [] then []
    else BytesOf(words[..|words| - 1]) + [Hi(words[|words| - 1]), Lo(words[|words| - 1])]
  }

  function Understand(count: nat, req: seq<byte>): (r: Request)
    requires Structured(req)
    ensures r.Read? ==> 1 <= r.qty <= READ_QTY_MAX && r.start + r.qty <= count
    ensures r.Write? ==> 1 <= |r.values| <= WRITE_MULTI_QTY_MAX && r.start + |r.values| <= count
  {
    var fc := req[1];
    if fc == FC_READ_HOLDING then
      if |req| != 8 then WrongLength
      else
        var start, qty := Word(req[2], req[3]), Word(req[4], req[5]);
        if !(1 <= qty <= READ_QTY_MAX) then Illegal(EX_ILLEGAL_VALUE)
        else if start + qty > count then Illegal(EX_ILLEGAL_ADDRESS)
        else Read(start, qty)
    else if fc == FC_WRITE_SINGLE then
      if |req| != 8 then WrongLength
      else
        var reg := Word(req[2], req[3]);
        if reg >= count then Illegal(EX_ILLEGAL_ADDRESS)
        else Write(reg, WordsAt(req, 4, 1))
    else if fc == FC_WRITE_MULTIPLE then
      var byteCount: nat := if |req| < 9 then 0 else req[6];
      if |req| < 9 || |req| != 9 + byteCount then WrongLength
      else
        var start, qty := Word(req[2], req[3]), Word(req[4], req[5]);
        if !(1 <= qty <= WRITE_MULTI_QTY_MAX) || byteCount != 2 * qty then Illegal(EX_ILLEGAL_VALUE)
        else if start + qty > count then Illegal(EX_ILLEGAL_ADDRESS)
        else Write(start, WordsAt(req, 7, qty))
    else Illegal(EX_ILLEGAL_FUNCTION)
  }

  function Overwrite(holding: seq<u16>, start: nat, values: seq<u16>): (r: seq<u16>)
    requires start + |values| <= |holding|
    ensures |r| == |holding|
  {
    holding[..start] + values + holding[start + |values|..]
  }

  // ---- answering ----

  /** The body of the reply: an exception names the function and the reason, a read carries the
      registers, and a write echoes the first five bytes of its PDU. */
  function ReplyBody(addr: byte, holding: seq<u16>, req: seq<byte>): seq<byte>
    requires Structured(req) && !Understand(|holding|, req).WrongLength?
  {
    match Understand(|holding|, req)
    case Illegal(code) => [addr, WithHighBit(req[1]), code]
    case Read(start, qty) => [addr, req[1], 2 * qty % 0x100] + BytesOf(holding[start..start + qty])
    case Write(_, _) => [addr] + req[1..6]
  }

  /** An intact frame addressed to this slave, the frame counters already updated. */
  function Serve(s: Station, req: seq<byte>): (Station, Outcome)
    requires Structured(req)
  {
    var request := Understand(|s.holding|, req);
    if request.WrongLength? then (s.(cnt := s.cnt.(lenErr := Inc(s.cnt.lenErr))), BadLength)
    else
      var holding := if request.Write? then Overwrite(s.holding, request.start, request.values) else s.holding;
      if IsBroadcast(req) then (s.(holding := holding), Silent)
      else
        var exceptions := if request.Illegal? then Inc(s.cnt.exceptions) else s.cnt.exceptions;
        var cnt := s.cnt.(exceptions := exceptions, responses := Inc(s.cnt.responses));
        (s.(holding := holding, cnt := cnt), Respond(Seal(ReplyBody(s.addr, s.holding, req))))
  }

  function CountFrame(cnt: Counters, broadcast: bool): Counters {
    cnt.(framesOk := Inc(cnt.framesOk), broadcast := if broadcast then Inc(cnt.broadcast) else cnt.broadcast)
  }

  /** `mb_slave_handle`. */
  function Handle(s: Station, req: seq<byte>): (Station, Outcome) {
    if !Structured(req) then (s.(cnt := s.cnt.(lenErr := Inc(s.cnt.lenErr))), BadLength)
    else if !Sealed(req) then (s.(cnt := s.cnt.(crcErr := Inc(s.cnt.crcErr))), BadCrc)
    else if !Addressed(s.addr, req) then (s, Silent)
    else Serve(s.(cnt := CountFrame(s.cnt, IsBroadcast(req))), req)
  }
}
