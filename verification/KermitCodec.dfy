/**
 The data-field encoding of embedded Kermit in binary mode without parity: control
 prefixing, run lengths with one byte of lookahead, and the division of the encoded file
 into packets. This module says what a packet must contain; module KermitPacketiser holds
 the routines that build one in place.
 */
module KermitCodec {
  import opened Bytes
  import opened KermitBytes

  /** Longest run one repeat count may describe. */
  const MAX_RUN := 236

  /** What negotiation settled: are runs compressed, and with which prefix. */
  datatype Codec = Codec(repeats: bool, rptq: byte)

  /** An accepted prefix that does not clash with the control prefix. */
  predicate Sound(k: Codec) {
    k.repeats ==> Acceptable(k.rptq) && k.rptq != PREFIX_CTRL
  }

  // ------------------------------------------------------------------ encoding

  /** One byte as it travels. */
  function Quote(k: Codec, a: byte): (q: seq<byte>)
    ensures 1 <= |q| <= 2
  {
    if Reserved(a) then [PREFIX_CTRL, Ctl(a)]
    else if a == PREFIX_CTRL || (k.repeats && a == k.rptq) then [PREFIX_CTRL, a]
    else [a]
  }

  /** `n` copies of one byte as they travel. */
  function Unit(k: Codec, a: byte, n: nat): seq<byte>
    requires 1 <= n <= MAX_RUN
  {
    if n == 1 then Quote(k, a) else [k.rptq, ToRepeat(n)] + Quote(k, a)
  }

  /** What one turn of the packet loop emits: nothing while a run is counted. A run of two goes
      out as two separate bytes, and a packet may end between them; every other step is one
      indivisible string. */
  datatype Step = Step(head: seq<byte>, tail: seq<byte>)

  function Close(k: Codec, a: byte, n: nat): (s: Step)
    requires 1 <= n <= MAX_RUN
    ensures |s.head| + |s.tail| <= 4 && s.tail != []
  {
    if n == 2 then Step(Quote(k, a), Quote(k, a)) else Step([], Unit(k, a, n))
  }

  /** Is `a` only counted, because the same byte follows and the run is below its cap? */
  predicate Counted(k: Codec, a: byte, n: nat, unread: seq<byte>) {
    k.repeats && unread != [] && unread[0] == a && n < MAX_RUN
  }

  function Emits(k: Codec, a: byte, n: nat, unread: seq<byte>): Step
    requires 1 <= n <= MAX_RUN
  {
    if Counted(k, a, n, unread) then Step([], []) else Close(k, a, n)
  }

  /** The steps for `n` copies of `a` followed by `rest`. */
  function Runs(k: Codec, a: byte, n: nat, rest: seq<byte>): seq<Step>
    requires 1 <= n <= MAX_RUN
    decreases |rest|
  {
    [Emits(k, a, n, rest)] + RunsAfter(k, a, n, rest)
  }

  /** The steps that follow the one for `a`. */
  function RunsAfter(k: Codec, a: byte, n: nat, rest: seq<byte>): seq<Step>
    requires 1 <= n <= MAX_RUN
    decreases |rest|, 0
  {
    if rest == [] then [] else Runs(k, rest[0], if Counted(k, a, n, rest) then n + 1 else 1, rest[1..])
  }

  function FileSteps(k: Codec, file: seq<byte>): seq<Step> {
    if file == [] then [] else Runs(k, file[0], 1, file[1..])
  }

  // ------------------------------------------------------------------ packets

  datatype Filled = Filled(data: seq<byte>, rest: seq<byte>, steps: seq<Step>)

  /** Fills a packet that already holds `acc`. After each step it is full when it has reached
      `maxlen`; a step that overshoots leaves its tail for the next packet. */
  function Fill(maxlen: int, acc: seq<byte>, steps: seq<Step>): Filled
    decreases |steps|
  {
    if steps == [] then Filled(acc, [], [])
    else
      var s := steps[0];
      var all := acc + s.head + s.tail;
      if |all| < maxlen then Fill(maxlen, all, steps[1..])
      else if |all| == maxlen then Filled(all, [], steps[1..])
      else Filled(acc + s.head, s.tail, steps[1..])
  }

  lemma {:induction false} FillConsumes(maxlen: int, acc: seq<byte>, steps: seq<Step>)
    ensures steps != [] ==> |Fill(maxlen, acc, steps).steps| < |steps|
    decreases |steps|
  {
    if steps != [] {
      FillConsumes(maxlen, acc + steps[0].head + steps[0].tail, steps[1..]);
    }
  }

  lemma FillDone(maxlen: int, acc: seq<byte>)
    ensures Fill(maxlen, acc, []) == Filled(acc, [], [])
  {
  }

  /** What an emitted step leads to: the packet goes on, is full, or is cut before `tail`. */
  function AfterStep(maxlen: int, acc: seq<byte>, head: seq<byte>, tail: seq<byte>, more: seq<Step>): Filled {
    var all := acc + head + tail;
    if |all| < maxlen then Fill(maxlen, all, more)
    else if |all| == maxlen then Filled(all, [], more)
    else Filled(acc + head, tail, more)
  }

  /** The data fields of all packets, in order, starting from leftovers `acc`. An empty data field
      is taken for the end of the file. */
  function Pack(maxlen: int, acc: seq<byte>, steps: seq<Step>): seq<seq<byte>>
    decreases |steps|, |acc|
  {
    var f := Fill(maxlen, acc, steps);
    FillConsumes(maxlen, acc, steps);
    if f.data == [] then [] else [f.data] + Pack(maxlen, f.rest, f.steps)
  }

  function Packets(k: Codec, maxlen: int, file: seq<byte>): seq<seq<byte>> {
    Pack(maxlen, [], FileSteps(k, file))
  }

  // ------------------------------------------------------------------ decoding

  datatype Item = NoItem | Item(count: nat, ch: byte, size: nat)

  /** Reads one item from non-empty memory: optional repeat prefix and count, optional
      control prefix, character. `NoItem` when the memory ends inside the item. */
  function ReadItem(k: Codec, m: seq<byte>): (it: Item)
    requires m != []
    ensures it.Item? ==> 1 <= it.size <= |m|
  {
    var repeated := k.repeats && m[0] == k.rptq;
    if repeated && |m| < 3 then NoItem
    else
      var at := if repeated then 2 else 0;
      var count := if repeated && UnRepeat(m[1]) != 0 then UnRepeat(m[1]) else 1;
      if m[at] != PREFIX_CTRL then Item(count, m[at], at + 1)
      else if |m| < at + 2 then NoItem
      else
        var c := m[at + 1];
        var low := c % 128;
        var ch := if low == Ctl(PACKET_END) || low == Ctl(PACKET_START) || low == Ctl(NUL) then Ctl(c) else c;
        Item(count, ch, at + 2)
  }

  /** Decodes a string that ends where its last item ends. */
  function DecodeData(k: Codec, s: seq<byte>): Option<seq<byte>>
    decreases |s|
  {
    if s == [] then Some([])
    else
      var it := ReadItem(k, s);
      if it.NoItem? then None
      else
        var rest := DecodeData(k, s[it.size..]);
        if rest.None? then None else Some(Copies(it.ch, it.count) + rest.value)
  }

  /** Decodes memory as the receiver does: up to a NUL that stands where an item would
      begin. `None` when no such NUL is met inside the memory. */
  function DecodeMemory(k: Codec, m: seq<byte>): Option<seq<byte>>
    decreases |m|
  {
    if m == [] then None
    else if m[0] == NUL then Some([])
    else
      var it := ReadItem(k, m);
      if it.NoItem? then None
      else
        var rest := DecodeMemory(k, m[it.size..]);
        if rest.None? then None else Some(Copies(it.ch, it.count) + rest.value)
  }

  /** The string holds whole items only: no prefix sequence is cut off at its end. */
  predicate Whole(k: Codec, s: seq<byte>) { DecodeData(k, s).Some? }

  function Out(k: Codec, s: seq<byte>): seq<byte>
    requires Whole(k, s)
  {
    DecodeData(k, s).value
  }
}
