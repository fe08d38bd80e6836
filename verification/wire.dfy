/**
 * The SSD1306 I2C wire protocol and the driver object that owns the bus.
 * The bus is a trace of the packets written to it; whether each write
 * reached the panel is decided by an oracle indexed by the packet's position
 * in the trace. A failed write still appears in the trace (it was
 * attempted).
 */
module Wire {
  import opened Framebuffer

  type Packet = seq<bv8>

  /** Control byte announcing command bytes. */
  const COMMAND_CONTROL: bv8 := 0x00
  /** Control byte announcing display-RAM data bytes. */
  const DATA_CONTROL: bv8 := 0x40
  /** Largest data payload of one bus transaction (the packet adds the control byte). */
  const MAX_PAYLOAD := 16

  /** The bus handle: whether the device node was opened and bound, and every packet written so far. */
  datatype Bus = Bus(open: bool, sent: seq<Packet>)

  /**
   * accepts(k) holds when the write that produced packet k of the trace
   * reached the panel whole. A rejected write is taken to have reached it not
   * at all: each transaction is all-or-nothing.
   */
  type Oracle = nat -> bool

  predicate AllAccepted(accepts: Oracle, lo: nat, hi: int) {
    forall k: nat :: lo <= k < hi ==> accepts(k)
  }

  // ---------------------------------------------------------------------
  // The byte streams a packet trace carries.

  /** The bytes a packet carries under `control`: everything after its first byte, when that byte is `control`. */
  function Carried(p: Packet, control: bv8): seq<bv8> {
    if |p| > 0 && p[0] == control then p[1..] else []
  }

  /**
   * The bytes sent under `control`, packet after packet, whether or not each
   * write was accepted. `Delivered` below is the part that reaches the panel.
   */
  function SentUnder(ps: seq<Packet>, control: bv8): seq<bv8>
    decreases |ps|
  {
    if ps == [] then [] else Carried(ps[0], control) + SentUnder(ps[1..], control)
  }

  /** The command bytes sent: the bytes after each 0x00 control byte. */
  function SentCommands(ps: seq<Packet>): seq<bv8> {
    SentUnder(ps, COMMAND_CONTROL)
  }

  /** The display-RAM bytes sent: the bytes after each 0x40 control byte. */
  function SentData(ps: seq<Packet>): seq<bv8> {
    SentUnder(ps, DATA_CONTROL)
  }

  /**
   * The bytes the panel takes in under `control` from the packets of a trace
   * starting at position `base`: a packet counts only when its write was
   * accepted.
   */
  function Delivered(ps: seq<Packet>, accepts: Oracle, base: nat, control: bv8): seq<bv8>
    decreases |ps|
  {
    if ps == [] then []
    else (if accepts(base) then Carried(ps[0], control) else []) + Delivered(ps[1..], accepts, base + 1, control)
  }

  /** When every write of the trace is accepted, the panel takes in exactly what was sent. */
  lemma {:induction false} DeliveredWhenAccepted(ps: seq<Packet>, accepts: Oracle, base: nat, control: bv8)
    requires AllAccepted(accepts, base, base + |ps|)
    ensures Delivered(ps, accepts, base, control) == SentUnder(ps, control)
    decreases |ps|
  {
    if ps != [] {
      assert accepts(base);
      DeliveredWhenAccepted(ps[1..], accepts, base + 1, control);
    }
  }

  /** A rejected write delivers nothing: a trace whose every write fails delivers no bytes. */
  lemma {:induction false} NothingDeliveredWhenRejected(ps: seq<Packet>, accepts: Oracle, base: nat, control: bv8)
    requires forall k: nat :: base <= k < base + |ps| ==> !accepts(k)
    ensures Delivered(ps, accepts, base, control) == []
    decreases |ps|
  {
    if ps != [] {
      assert !accepts(base);
      NothingDeliveredWhenRejected(ps[1..], accepts, base + 1, control);
    }
  }

  lemma {:induction false} SentUnderConcat(a: seq<Packet>, b: seq<Packet>, control: bv8)
    ensures SentUnder(a + b, control) == SentUnder(a, control) + SentUnder(b, control)
    decreases |a|
  {
    if a == [] {
      assert a + b == b;
    } else {
      assert (a + b)[0] == a[0];
      assert (a + b)[1..] == a[1..] + b;
      SentUnderConcat(a[1..], b, control);
    }
  }

  /** A single packet sends what it carries. */
  lemma SentUnderSingle(p: Packet, control: bv8)
    ensures SentUnder([p], control) == Carried(p, control)
  {
    assert [p][1..] == [];
  }

  lemma StreamsConcat(a: seq<Packet>, b: seq<Packet>)
    ensures SentCommands(a + b) == SentCommands(a) + SentCommands(b)
    ensures SentData(a + b) == SentData(a) + SentData(b)
  {
    SentUnderConcat(a, b, COMMAND_CONTROL);
    SentUnderConcat(a, b, DATA_CONTROL);
  }

  // ---------------------------------------------------------------------
  // Framing.

  /** One two-byte packet per command byte, in order. */
  function CommandPackets(cs: seq<bv8>): (ps: seq<Packet>)
    ensures |ps| == |cs|
  {
    seq(|cs|, i requires 0 <= i < |cs| => [COMMAND_CONTROL, cs[i]])
  }

  /** Framing commands one by one distributes over concatenation. */
  lemma CommandPacketsConcat(a: seq<bv8>, b: seq<bv8>)
    ensures CommandPackets(a + b) == CommandPackets(a) + CommandPackets(b)
  {
  }

  /** A command packet stream carries exactly the command bytes, and no data. */
  lemma {:induction false} CommandFraming(cs: seq<bv8>)
    ensures SentCommands(CommandPackets(cs)) == cs && SentData(CommandPackets(cs)) == []
    decreases |cs|
  {
    if cs != [] {
      assert CommandPackets(cs)[1..] == CommandPackets(cs[1..]);
      CommandFraming(cs[1..]);
    }
  }

  /** The length of the chunk `writeData` sends from offset i: 16 bytes, or what is left. */
  function ChunkLength(data: seq<bv8>, i: int): int {
    if |data| - i > MAX_PAYLOAD then MAX_PAYLOAD else |data| - i
  }

  /** The packets `writeData` sends from offset i: 0x40 followed by the next chunk, until `data` is used up. */
  function DataPacketsFrom(data: seq<bv8>, i: nat): seq<Packet>
    requires i <= |data|
    decreases |data| - i
  {
    if i == |data| then []
    else
      var n := ChunkLength(data, i);
      [[DATA_CONTROL] + data[i..i + n]] + DataPacketsFrom(data, i + n)
  }

  /** The packets `writeData(data, len)` sends. */
  function DataPackets(data: seq<bv8>): seq<Packet> {
    DataPacketsFrom(data, 0)
  }

  lemma {:induction false} DataPacketsFromShape(data: seq<bv8>, i: nat)
    requires i <= |data|
    ensures |DataPacketsFrom(data, i)| == (|data| - i + MAX_PAYLOAD - 1) / MAX_PAYLOAD
    ensures forall k :: 0 <= k < |DataPacketsFrom(data, i)| ==>
              2 <= |DataPacketsFrom(data, i)[k]| <= MAX_PAYLOAD + 1 && DataPacketsFrom(data, i)[k][0] == DATA_CONTROL
    ensures forall k :: 0 <= k < |DataPacketsFrom(data, i)| - 1 ==> |DataPacketsFrom(data, i)[k]| == MAX_PAYLOAD + 1
    decreases |data| - i
  {
    if i < |data| {
      DataPacketsFromShape(data, i + ChunkLength(data, i));
    }
  }

  /**
   * Chunking: ceil(len / 16) packets, each 0x40 plus 1..16 bytes, all but the
   * last carrying exactly 16.
   */
  lemma DataPacketsShape(data: seq<bv8>)
    ensures |DataPackets(data)| == (|data| + MAX_PAYLOAD - 1) / MAX_PAYLOAD
    ensures forall k :: 0 <= k < |DataPackets(data)| ==>
              2 <= |DataPackets(data)[k]| <= MAX_PAYLOAD + 1 && DataPackets(data)[k][0] == DATA_CONTROL
    ensures forall k :: 0 <= k < |DataPackets(data)| - 1 ==> |DataPackets(data)[k]| == MAX_PAYLOAD + 1
  {
    DataPacketsFromShape(data, 0);
  }

  /** The data packets from offset i carry exactly the rest of `data`. */
  lemma {:induction false} DataPacketsFromData(data: seq<bv8>, i: nat)
    requires i <= |data|
    ensures SentData(DataPacketsFrom(data, i)) == data[i..]
    decreases |data| - i
  {
    if i < |data| {
      var j := i + ChunkLength(data, i);
      assert DataPacketsFrom(data, i) == [[DATA_CONTROL] + data[i..j]] + DataPacketsFrom(data, j);
      DataPacketsFromData(data, j);
      DataChunkStep(data, i, j, DataPacketsFrom(data, j));
    }
  }

  /** One data packet for data[i..j] in front of packets carrying data[j..] carries data[i..]. */
  lemma DataChunkStep(data: seq<bv8>, i: nat, j: nat, rest: seq<Packet>)
    requires i <= j <= |data|
    requires SentData(rest) == data[j..]
    ensures SentData([[DATA_CONTROL] + data[i..j]] + rest) == data[i..]
  {
    var p := [DATA_CONTROL] + data[i..j];
    SentUnderConcat([p], rest, DATA_CONTROL);
    SentUnderSingle(p, DATA_CONTROL);
    assert p[1..] == data[i..j];
    assert data[i..] == data[i..j] + data[j..];
  }

  /** The data packets from offset i carry no command bytes. */
  lemma {:induction false} DataPacketsFromNoCommands(data: seq<bv8>, i: nat)
    requires i <= |data|
    ensures SentCommands(DataPacketsFrom(data, i)) == []
    decreases |data| - i
  {
    if i < |data| {
      var j := i + ChunkLength(data, i);
      var p := [DATA_CONTROL] + data[i..j];
      var rest := DataPacketsFrom(data, j);
      assert DataPacketsFrom(data, i) == [p] + rest;
      assert SentCommands([p] + rest) == SentCommands(rest) by {
        SentUnderConcat([p], rest, COMMAND_CONTROL);
        SentUnderSingle(p, COMMAND_CONTROL);
      }
      DataPacketsFromNoCommands(data, j);
    }
  }

  /** Round trip: the data packets carry exactly `data`, and no commands. */
  lemma DataPacketsRoundTrip(data: seq<bv8>)
    ensures SentData(DataPackets(data)) == data && SentCommands(DataPackets(data)) == []
  {
    DataPacketsFromData(data, 0);
    DataPacketsFromNoCommands(data, 0);
    assert data[0..] == data;
  }

  lemma AllAcceptedExtend(accepts: Oracle, lo: nat, hi: nat)
    requires AllAccepted(accepts, lo, hi) && accepts(hi)
    ensures AllAccepted(accepts, lo, hi + 1)
  {
  }

  /** `writeCmd(c)`: one packet [0x00, c]; with no open bus it sends nothing and fails. */
  function WriteCmd(bus: Bus, accepts: Oracle, c: bv8): (r: (Bus, bool))
    ensures !bus.open ==> r == (bus, false)
    ensures bus.open ==> r.0.open && r.0.sent == bus.sent + [[COMMAND_CONTROL, c]]
    ensures bus.open ==> SentCommands(r.0.sent) == SentCommands(bus.sent) + [c] && SentData(r.0.sent) == SentData(bus.sent)
    ensures bus.open ==> (r.1 <==> accepts(|bus.sent|))
  {
    if !bus.open then (bus, false)
    else
      var sent := bus.sent + [[COMMAND_CONTROL, c]];
      StreamsConcat(bus.sent, [[COMMAND_CONTROL, c]]);
      SentUnderSingle([COMMAND_CONTROL, c], COMMAND_CONTROL);
      SentUnderSingle([COMMAND_CONTROL, c], DATA_CONTROL);
      assert [COMMAND_CONTROL, c][1..] == [c];
      (Bus(true, sent), accepts(|bus.sent|))
  }

  /**
   * `after` is `before` followed by the first packets of `ps`, one write
   * each, up to and including the first write that was not accepted; `ok`
   * says whether every packet went out whole.
   */
  predicate Streamed(accepts: Oracle, before: seq<Packet>, after: seq<Packet>, ps: seq<Packet>, ok: bool) {
    var m := |after| - |before|;
    && 0 <= m <= |ps|
    && after == before + ps[..m]
    && AllAccepted(accepts, |before|, |after| - 1)
    && (ok <==> m == |ps| && AllAccepted(accepts, |before|, |after|))
    && (!ok ==> m > 0 && !accepts(|after| - 1))
  }

  lemma StreamedStop(accepts: Oracle, before: seq<Packet>, done: seq<Packet>, rest: seq<Packet>, ok: bool)
    requires AllAccepted(accepts, |before|, |before| + |done| - 1)
    requires ok ==> rest == [] && AllAccepted(accepts, |before|, |before| + |done|)
    requires !ok ==> done != [] && !accepts(|before| + |done| - 1)
    ensures Streamed(accepts, before, before + done, done + rest, ok)
  {
    assert (done + rest)[..|done|] == done;
  }

  /**
   * `writeData(data, len)`: with no open bus it sends nothing and fails;
   * otherwise it sends the packets of DataPackets(data) in order and stops at
   * the first write that is not accepted, returning false.
   */
  method WriteData(bus: Bus, accepts: Oracle, data: seq<bv8>) returns (bus': Bus, ok: bool)
    ensures !bus.open ==> bus' == bus && !ok
    ensures bus.open ==> bus'.open && Streamed(accepts, bus.sent, bus'.sent, DataPackets(data), ok)
  {
    if !bus.open {
      return bus, false;
    }
    var sent := bus.sent;
    var i := 0;
    ghost var done: seq<Packet> := [];
    while i < |data|
      invariant 0 <= i <= |data|
      invariant sent == bus.sent + done
      invariant DataPackets(data) == done + DataPacketsFrom(data, i)
      invariant AllAccepted(accepts, |bus.sent|, |sent|)
      decreases |data| - i
    {
      var n := if |data| - i > MAX_PAYLOAD then MAX_PAYLOAD else |data| - i;
      var packet := [DATA_CONTROL] + data[i..i + n];
      assert DataPacketsFrom(data, i) == [packet] + DataPacketsFrom(data, i + n);
      assert done + ([packet] + DataPacketsFrom(data, i + n)) == (done + [packet]) + DataPacketsFrom(data, i + n);
      var accepted := accepts(|sent|);
      sent := sent + [packet];
      done := done + [packet];
      if !accepted {
        StreamedStop(accepts, bus.sent, done, DataPacketsFrom(data, i + n), false);
        return Bus(true, sent), false;
      }
      AllAcceptedExtend(accepts, |bus.sent|, |sent| - 1);
      i := i + n;
    }
    StreamedStop(accepts, bus.sent, done, [], true);
    bus', ok := Bus(true, sent), true;
  }

  // ---------------------------------------------------------------------
  // The driver.

  /** The 26 command bytes of the 128x32 bring-up sequence, in order. */
  const INIT_COMMANDS: seq<bv8> := [
    0xAE,       // display off
    0xD5, 0x80, // clock divide ratio / oscillator frequency
    0xA8, 0x1F, // multiplex ratio 32 - 1
    0xD3, 0x00, // display offset 0
    0x40,       // start line 0
    0x8D, 0x14, // charge pump on
    0x20, 0x00, // horizontal addressing
    0xA1,       // segment remap
    0xC8,       // COM scan direction remapped
    0xDA, 0x02, // COM pins configuration for 128x32
    0x81, 0x8F, // contrast
    0xD9, 0xF1, // pre-charge period
    0xDB, 0x40, // VCOMH deselect level
    0xA4,       // display follows RAM
    0xA6,       // normal (non-inverted) display
    0x2E,       // deactivate scroll
    0xAF        // display on
  ]

  /** Column window 0..WIDTH-1, then page window 0..PAGES-1. */
  const FLUSH_COMMANDS: seq<bv8> := [0x21, 0x00, (WIDTH - 1) as bv8, 0x22, 0x00, (PAGES - 1) as bv8]

  datatype Driver = Driver(address: bv8, bus: Bus, buf: Buffer)

  /**
   * The constructor: the bus is usable only when the device node opened and
   * the address was bound; the buffer starts blank and nothing is sent.
   */
  /** The 7-bit bus address the driver binds to unless told otherwise. */
  const DEFAULT_ADDRESS: bv8 := 0x3C

  function NewDriver(nodeOpened: bool, bound: bool, address: bv8 := DEFAULT_ADDRESS): (d: Driver)
    ensures d.bus.open <==> nodeOpened && bound
    ensures d.bus.sent == [] && d.address == address
    ensures forall x, y :: InRange(x, y) ==> !Pixel(d.buf, x, y)
  {
    Driver(address, Bus(nodeOpened && bound, []), Blank())
  }

  /** A driver built without an address binds to 0x3C. */
  lemma NewDriverDefaultAddress(nodeOpened: bool, bound: bool)
    ensures NewDriver(nodeOpened, bound).address == 0x3C
  {
  }

  /**
   * `for (c : cs) writeCmd(c)`: every command is written, each in its own
   * packet, whatever the write results.
   */
  method WriteCommands(bus: Bus, accepts: Oracle, cs: seq<bv8>) returns (bus': Bus)
    ensures !bus.open ==> bus' == bus
    ensures bus.open ==> bus' == Bus(true, bus.sent + CommandPackets(cs))
    ensures bus.open ==> SentCommands(bus'.sent) == SentCommands(bus.sent) + cs
    ensures SentData(bus'.sent) == SentData(bus.sent)
  {
    bus' := bus;
    for i := 0 to |cs|
      invariant !bus.open ==> bus' == bus
      invariant bus.open ==> bus' == Bus(true, bus.sent + CommandPackets(cs[..i]))
    {
      var r := WriteCmd(bus', accepts, cs[i]);
      assert CommandPackets(cs[..i + 1]) == CommandPackets(cs[..i]) + [[COMMAND_CONTROL, cs[i]]];
      bus' := r.0;
    }
    if bus.open {
      assert cs[..|cs|] == cs;
      StreamsConcat(bus.sent, CommandPackets(cs));
      CommandFraming(cs);
    }
  }

  /** `initSeq`: the 26 bring-up commands, each in its own packet, whatever the write results. */
  method InitSeq(bus: Bus, accepts: Oracle) returns (bus': Bus)
    ensures !bus.open ==> bus' == bus
    ensures bus.open ==> bus' == Bus(true, bus.sent + CommandPackets(INIT_COMMANDS))
    ensures bus.open ==> SentCommands(bus'.sent) == SentCommands(bus.sent) + INIT_COMMANDS
    ensures SentData(bus'.sent) == SentData(bus.sent)
  {
    bus' := WriteCommands(bus, accepts, INIT_COMMANDS);
  }

  /**
   * The six `writeCmd` calls that open a flush: column window 0..127, then
   * page window 0..3, each written whatever its result.
   */
  method SetWindow(bus: Bus, accepts: Oracle) returns (bus': Bus)
    ensures !bus.open ==> bus' == bus
    ensures bus.open ==> bus' == Bus(true, bus.sent + CommandPackets(FLUSH_COMMANDS))
    ensures bus.open ==> SentCommands(bus'.sent) == SentCommands(bus.sent) + FLUSH_COMMANDS
  {
    bus' := WriteCommands(bus, accepts, FLUSH_COMMANDS);
  }

  /**
   * `display`: the six window commands, then the whole buffer as data
   * packets. Write results are ignored; the buffer is left as it is.
   */
  method Display(d: Driver, accepts: Oracle) returns (d': Driver)
    ensures d'.buf == d.buf && d'.address == d.address
    ensures !d.bus.open ==> d' == d
    ensures d.bus.open ==> d'.bus.open
    ensures d.bus.open ==>
              var windowed := d.bus.sent + CommandPackets(FLUSH_COMMANDS);
              Streamed(accepts, windowed, d'.bus.sent, DataPackets(d.buf), true)
              || Streamed(accepts, windowed, d'.bus.sent, DataPackets(d.buf), false)
    ensures d.bus.open && AllAccepted(accepts, |d.bus.sent| + 6, |d.bus.sent| + 6 + 32) ==>
              && d'.bus.sent == d.bus.sent + CommandPackets(FLUSH_COMMANDS) + DataPackets(d.buf)
              && SentCommands(d'.bus.sent) == SentCommands(d.bus.sent) + FLUSH_COMMANDS
              && SentData(d'.bus.sent) == SentData(d.bus.sent) + d.buf
  {
    var windowed := SetWindow(d.bus, accepts);
    var bus', ok := WriteData(windowed, accepts, d.buf);
    d' := Driver(d.address, bus', d.buf);
    if d.bus.open && AllAccepted(accepts, |d.bus.sent| + 6, |d.bus.sent| + 6 + 32) {
      FlushDelivered(accepts, d.bus.sent, bus'.sent, d.buf, ok);
    }
  }

  /** When every data write of a flush is accepted, the trace carries the window commands and then the whole buffer. */
  lemma FlushDelivered(accepts: Oracle, before: seq<Packet>, after: seq<Packet>, buf: Buffer, ok: bool)
    requires Streamed(accepts, before + CommandPackets(FLUSH_COMMANDS), after, DataPackets(buf), ok)
    requires AllAccepted(accepts, |before| + 6, |before| + 6 + 32)
    ensures after == before + CommandPackets(FLUSH_COMMANDS) + DataPackets(buf)
    ensures SentCommands(after) == SentCommands(before) + FLUSH_COMMANDS
    ensures SentData(after) == SentData(before) + buf
  {
    DataPacketsShape(buf);
    StreamedAllAccepted(accepts, before + CommandPackets(FLUSH_COMMANDS), after, DataPackets(buf), ok);
    CommandsThenData(before, FLUSH_COMMANDS, buf);
  }

  /** What command packets then data packets appended to `before` carry. */
  lemma CommandsThenData(before: seq<Packet>, cs: seq<bv8>, data: seq<bv8>)
    ensures SentCommands(before + CommandPackets(cs) + DataPackets(data)) == SentCommands(before) + cs
    ensures SentData(before + CommandPackets(cs) + DataPackets(data)) == SentData(before) + data
  {
    CommandsAfterFraming(before, cs, data);
    PayloadAfterFraming(before, cs, data);
  }

  lemma CommandsAfterFraming(before: seq<Packet>, cs: seq<bv8>, data: seq<bv8>)
    ensures SentCommands(before + CommandPackets(cs) + DataPackets(data)) == SentCommands(before) + cs
  {
    DataPacketsRoundTrip(data);
    CommandFraming(cs);
    SilentTail(before, CommandPackets(cs), DataPackets(data), COMMAND_CONTROL);
  }

  lemma PayloadAfterFraming(before: seq<Packet>, cs: seq<bv8>, data: seq<bv8>)
    ensures SentData(before + CommandPackets(cs) + DataPackets(data)) == SentData(before) + data
  {
    DataPacketsRoundTrip(data);
    CommandFraming(cs);
    SilentMiddle(before, CommandPackets(cs), DataPackets(data), DATA_CONTROL);
  }

  /** Packets that carry nothing under `control` at the end add nothing. */
  lemma SilentTail(a: seq<Packet>, b: seq<Packet>, c: seq<Packet>, control: bv8)
    requires SentUnder(c, control) == []
    ensures SentUnder(a + b + c, control) == SentUnder(a, control) + SentUnder(b, control)
  {
    SentUnderThree(a, b, c, control);
    assert SentUnder(a, control) + SentUnder(b, control) + [] == SentUnder(a, control) + SentUnder(b, control);
  }

  /** Packets that carry nothing under `control` in the middle add nothing. */
  lemma SilentMiddle(a: seq<Packet>, b: seq<Packet>, c: seq<Packet>, control: bv8)
    requires SentUnder(b, control) == []
    ensures SentUnder(a + b + c, control) == SentUnder(a, control) + SentUnder(c, control)
  {
    SentUnderThree(a, b, c, control);
    assert SentUnder(a, control) + [] == SentUnder(a, control);
  }

  lemma SentUnderThree(a: seq<Packet>, b: seq<Packet>, c: seq<Packet>, control: bv8)
    ensures SentUnder(a + b + c, control) == SentUnder(a, control) + SentUnder(b, control) + SentUnder(c, control)
  {
    SentUnderConcat(a + b, c, control);
    SentUnderConcat(a, b, control);
  }

  /** A stream whose every write is accepted delivers all of its packets. */
  lemma StreamedAllAccepted(accepts: Oracle, before: seq<Packet>, after: seq<Packet>, ps: seq<Packet>, ok: bool)
    requires Streamed(accepts, before, after, ps, ok)
    requires AllAccepted(accepts, |before|, |before| + |ps|)
    ensures ok && after == before + ps
  {
    assert ps[..|ps|] == ps;
  }

  /**
   * `init`: with no usable bus it fails and sends nothing; otherwise it sends
   * the bring-up sequence, blanks the buffer and flushes it, and succeeds.
   */
  method Init(d: Driver, accepts: Oracle) returns (d': Driver, ok: bool)
    ensures !d.bus.open ==> d' == d && !ok
    ensures d.bus.open ==> ok && d'.bus.open && d'.address == d.address
    ensures d.bus.open ==> forall i :: 0 <= i < BUFFER_SIZE ==> d'.buf[i] == 0
    ensures d.bus.open ==>
              && |d'.bus.sent| >= |d.bus.sent| + 32
              && d'.bus.sent[..|d.bus.sent| + 32] == d.bus.sent + CommandPackets(INIT_COMMANDS + FLUSH_COMMANDS)
    ensures d.bus.open && AllAccepted(accepts, |d.bus.sent| + 32, |d.bus.sent| + 32 + 32) ==>
              && SentCommands(d'.bus.sent) == SentCommands(d.bus.sent) + INIT_COMMANDS + FLUSH_COMMANDS
              && SentData(d'.bus.sent) == SentData(d.bus.sent) + d'.buf
  {
    if !d.bus.open {
      return d, false;
    }
    var bus := InitSeq(d.bus, accepts);
    var cleared := Driver(d.address, bus, Clear(d.buf));
    d' := Display(cleared, accepts);
    ok := true;
    CommandsPrefix(d.bus.sent, INIT_COMMANDS, FLUSH_COMMANDS, d'.bus.sent);
  }

  /** What follows two command streams appended to `before` leaves them in place as a prefix. */
  lemma CommandsPrefix(before: seq<Packet>, cs: seq<bv8>, fs: seq<bv8>, after: seq<Packet>)
    requires exists rest :: after == before + CommandPackets(cs) + CommandPackets(fs) + rest
    ensures |after| >= |before| + |cs| + |fs|
    ensures after[..|before| + |cs| + |fs|] == before + CommandPackets(cs + fs)
  {
    CommandPacketsConcat(cs, fs);
    var rest :| after == before + CommandPackets(cs) + CommandPackets(fs) + rest;
    assert after[..|before| + |cs| + |fs|] == before + CommandPackets(cs) + CommandPackets(fs);
  }

}
