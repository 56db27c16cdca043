/** The Internet checksum and the packets and captures built with it (scripts/check_sensor_integration.py), after
    section 1 of RFC 1071, section 3.1 of RFC 791 and section 3.1 of RFC 9293. */
module Checksum {
  import opened Records

  type byte = b: int | 0 <= b < 256
  type u16 = n: int | 0 <= n < 65536
  type u32 = n: int | 0 <= n < 0x1_0000_0000

  function Be16(n: u16): seq<byte> {
    [n / 256, n % 256]
  }

  function Be32(n: u32): seq<byte> {
    Be16(n / 65536) + Be16(n % 65536)
  }

  function Padded(data: seq<byte>): (p: seq<byte>)
    ensures |p| % 2 == 0
  {
    data + (if |data| % 2 == 0 then [] else [0])
  }

  /** The sum of the big-endian words. */
  function WordSum(data: seq<byte>): nat
    requires |data| % 2 == 0
  {
    if data == [] then 0 else WordSum(data[..|data| - 2]) + 256 * (data[|data| - 2] as int) + data[|data| - 1] as int
  }

  // ---------------------------------------------------------------- the fold

  /** Carry bits added back until none is left. */
  function Fold(value: nat): u16 {
    if value >= 65536 then Fold(value % 65536 + value / 65536) else value
  }

  function ChecksumOf(data: seq<byte>): u16 {
    65535 - Fold(WordSum(Padded(data)))
  }

  /** The words summed, the carries folded, the complement returned. */
  method ComputeChecksum(data: seq<byte>) returns (c: u16)
    ensures c == ChecksumOf(data)
  {
    var padded := Padded(data);
    var value: nat, i: nat := 0, 0;
    while i < |padded|
      invariant 0 <= i <= |padded| && i % 2 == 0
      invariant value == WordSum(padded[..i])
    {
      assert padded[..i + 2][..i] == padded[..i];
      value := value + 256 * (padded[i] as int) + padded[i + 1] as int;
      i := i + 2;
    }
    assert padded[..i] == padded;
    while value >= 65536
      invariant Fold(value) == Fold(WordSum(padded))
      decreases value
    {
      value := value % 65536 + value / 65536;
    }
    c := 65535 - value;
  }

  /** Folding keeps the residue modulo 65535, and yields zero for zero only. */
  lemma {:induction false} FoldKeepsResidue(value: nat)
    ensures Fold(value) % 65535 == value % 65535
    ensures Fold(value) == 0 <==> value == 0
  {
    if value >= 65536 {
      var next := value % 65536 + value / 65536;
      assert value == next + 65535 * (value / 65536);
      ResidueShift(next, value / 65536);
      FoldKeepsResidue(next);
    }
  }

  lemma ResidueShift(x: nat, k: nat)
    ensures (x + 65535 * k) % 65535 == x % 65535
  {
  }

  /** One's complement addition: the fold of a positive sum is its residue with zero written as 65535. */
  lemma FoldIsResidue(value: nat)
    ensures Fold(value) == if value == 0 then 0 else (value - 1) % 65535 + 1
  {
    FoldKeepsResidue(value);
    if value > 0 {
      var q, r := (value - 1) / 65535, (value - 1) % 65535;
      assert value == (r + 1) + 65535 * q;
      ResidueShift(r + 1, q);
      SameResidue(Fold(value), r + 1);
    }
  }

  lemma SameResidue(a: int, b: int)
    requires 1 <= a <= 65535 && 1 <= b <= 65535 && a % 65535 == b % 65535
    ensures a == b
  {
    assert a < 65535 ==> a % 65535 == a;
    assert b < 65535 ==> b % 65535 == b;
  }

  // ------------------------------------------------------- a field filled in

  predicate ZeroField(data: seq<byte>, at: nat) {
    at % 2 == 0 && at + 2 <= |data| && data[at] == 0 && data[at + 1] == 0
  }

  function WithField(data: seq<byte>, at: nat, c: u16): (r: seq<byte>)
    requires at + 2 <= |data|
    ensures |r| == |data|
  {
    data[..at] + Be16(c) + data[at + 2..]
  }

  lemma {:induction false} FieldAdds(data: seq<byte>, at: nat, c: u16)
    requires |data| % 2 == 0 && ZeroField(data, at)
    ensures WordSum(WithField(data, at, c)) == WordSum(data) + c
  {
    var n := |data| - 2;
    var filled := WithField(data, at, c);
    if at < n {
      FieldAdds(data[..n], at, c);
      assert filled[..n] == WithField(data[..n], at, c);
    } else {
      assert filled[..n] == data[..n];
    }
  }

  /** Written into its zeroed, even-aligned field, the checksum makes the checksum of the whole zero, whatever the
      data and its length. */
  lemma FilledChecksumVerifies(data: seq<byte>, at: nat)
    requires ZeroField(data, at)
    ensures ChecksumOf(WithField(data, at, ChecksumOf(data))) == 0
  {
    var c := ChecksumOf(data);
    var padded := Padded(data);
    assert Padded(WithField(data, at, c)) == WithField(padded, at, c);
    FieldAdds(padded, at, c);
    var sum := WordSum(padded);
    FoldIsResidue(sum);
    FoldIsResidue(sum + c);
    Complement(sum);
  }

  lemma Complement(sum: nat)
    ensures var f := if sum == 0 then 0 else (sum - 1) % 65535 + 1; (sum + (65535 - f) - 1) % 65535 == 65534
  {
    if sum > 0 {
      var k := (sum - 1) / 65535;
      assert sum - 1 == 65535 * k + (sum - 1) % 65535;
      ResidueShift(65534, k);
    }
  }

  /** A word in error by anything but a multiple of 65535 shows. */
  lemma WrongFieldShows(data: seq<byte>, at: nat, c: u16)
    requires ZeroField(data, at)
    ensures ChecksumOf(WithField(data, at, c)) == 0 ==> c % 65535 == ChecksumOf(data) % 65535
  {
    var padded := Padded(data);
    assert Padded(WithField(data, at, c)) == WithField(padded, at, c);
    FieldAdds(padded, at, c);
    var sum := WordSum(padded);
    FoldKeepsResidue(sum);
    FoldKeepsResidue(sum + c);
    if ChecksumOf(WithField(data, at, c)) == 0 {
      Residues(sum, c, Fold(sum));
    }
  }

  lemma Residues(sum: nat, c: u16, f: u16)
    requires (sum + c) % 65535 == 0 && f % 65535 == sum % 65535
    ensures c % 65535 == (65535 - f) % 65535
  {
    assert sum == 65535 * (sum / 65535) + sum % 65535;
    assert (sum % 65535 + c) % 65535 == 0 by {
      ResidueShift(sum % 65535 + c, sum / 65535);
    }
  }

  // ----------------------------------------------------------------- packets

  type Address = a: seq<byte> | |a| == 4 witness [0, 0, 0, 0]

  const TCP: byte := 6

  function HeaderOf(source: Address, destination: Address, protocol: byte, length: u16, identifier: u16): (h: seq<byte>)
    ensures |h| == 20
  {
    [0x45, 0] + Be16(length) + Be16(identifier) + Be16(0) + [64, protocol] + Be16(0) + source + destination
  }

  /** An IPv4 packet; a payload whose total length does not fit sixteen bits cannot be packed. */
  method Ipv4Packet(source: Address, destination: Address, protocol: byte, payload: seq<byte>, identifier: u16)
    returns (r: Result<seq<byte>, string>)
    ensures r.Ok? <==> |payload| <= 65515
    ensures r.Ok? ==> |r.value| == 20 + |payload| && r.value[20..] == payload && ChecksumOf(r.value[..20]) == 0
    ensures r.Ok? ==> r.value[2..4] == Be16(|r.value|) && r.value[4..6] == Be16(identifier) && r.value[9] == protocol
    ensures r.Ok? ==> r.value[12..16] == source && r.value[16..20] == destination
  {
    if 20 + |payload| > 65535 {
      return Err("total length does not fit the header");
    }
    var header := HeaderOf(source, destination, protocol, 20 + |payload|, identifier);
    var c := ComputeChecksum(header);
    FilledChecksumVerifies(header, 10);
    var filled := WithField(header, 10, c);
    assert filled[2..4] == header[2..4] == Be16(20 + |payload|);
    assert filled[4..6] == header[4..6] == Be16(identifier);
    assert filled[12..16] == header[12..16] == source && filled[16..20] == header[16..20] == destination;
    r := Ok(filled + payload);
    assert r.value[..20] == filled;
    assert r.value[2..4] == filled[2..4] && r.value[4..6] == filled[4..6];
    assert r.value[12..16] == filled[12..16] && r.value[16..20] == filled[16..20];
  }

  function SegmentOf(sourcePort: u16, destinationPort: u16, sequence: u32, acknowledgement: u32, flags: byte, payload: seq<byte>): (s: seq<byte>)
    ensures |s| == 20 + |payload| && ZeroField(s, 16) && s[20..] == payload
  {
    Be16(sourcePort) + Be16(destinationPort) + Be32(sequence) + Be32(acknowledgement) + [0x50, flags] + Be16(65535) + Be16(0) + Be16(0) + payload
  }

  function Pseudo(source: seq<byte>, destination: seq<byte>, length: u16): seq<byte> {
    source + destination + [0, TCP] + Be16(length)
  }

  const ETHERNET: seq<byte> := [2, 0, 0, 0, 0, 2, 2, 0, 0, 0, 0, 1, 8, 0]

  /** What a receiver checks of a frame: the header alone, and the segment behind the pseudo-header that the received
      header gives. */
  predicate Verifies(frame: seq<byte>) {
    && |frame| >= 54 && |frame| - 34 < 65536
    && ChecksumOf(frame[14..34]) == 0
    && frame[23] == TCP
    && ChecksumOf(Pseudo(frame[26..30], frame[30..34], |frame| - 34) + frame[34..]) == 0
  }

  /** A TCP frame with payload of any parity that fits: both checksums verify at the receiver. */
  method TcpFrame(source: Address, destination: Address, sourcePort: u16, destinationPort: u16, sequence: u32,
                  acknowledgement: u32, flags: byte, payload: seq<byte>, identifier: u16)
    returns (r: Result<seq<byte>, string>)
    ensures r.Ok? <==> |payload| <= 65495
    ensures r.Ok? ==> Verifies(r.value) && |r.value| == 54 + |payload| && r.value[54..] == payload
  {
    var segment := SegmentOf(sourcePort, destinationPort, sequence, acknowledgement, flags, payload);
    if |segment| > 65535 {
      return Err("segment length does not fit the pseudo-header");
    }
    var pseudo := Pseudo(source, destination, |segment|);
    var c := ComputeChecksum(pseudo + segment);
    var filled := WithField(segment, 16, c);
    SegmentVerifies(pseudo, segment);
    var packet := Ipv4Packet(source, destination, TCP, filled, identifier);
    if packet.Err? {
      return packet;
    }
    r := Ok(ETHERNET + packet.value);
    FrameParts(packet.value);
    assert packet.value[20..] == filled;
    assert filled[20..] == segment[20..] == payload;
    assert r.value[54..] == filled[20..];
  }

  lemma SegmentVerifies(pseudo: seq<byte>, segment: seq<byte>)
    requires |pseudo| == 12 && ZeroField(segment, 16)
    ensures ChecksumOf(pseudo + WithField(segment, 16, ChecksumOf(pseudo + segment))) == 0
  {
    var whole := pseudo + segment;
    var c := ChecksumOf(whole);
    FilledChecksumVerifies(whole, 28);
    assert WithField(whole, 28, c) == pseudo + WithField(segment, 16, c);
  }

  lemma FrameParts(packet: seq<byte>)
    requires |packet| >= 40
    ensures var frame := ETHERNET + packet;
      && frame[14..34] == packet[..20] && frame[26..30] == packet[12..16] && frame[30..34] == packet[16..20]
      && frame[34..] == packet[20..] && frame[23] == packet[9]
  {
  }

  // ---------------------------------------------------------------- captures

  datatype Capture = Capture(seconds: u32, micros: u32, packet: seq<byte>)

  function Le32(n: u32): (r: seq<byte>)
    ensures |r| == 4
  {
    [n % 256, n / 256 % 256, n / 65536 % 256, n / 16777216]
  }

  function FromLe32(b: seq<byte>): u32
    requires |b| == 4
  {
    b[0] as int + 256 * (b[1] as int) + 65536 * (b[2] as int) + 16777216 * (b[3] as int)
  }

  lemma FourDigits(n: nat)
    ensures n == n % 256 + 256 * (n / 256 % 256) + 65536 * (n / 65536 % 256) + 16777216 * (n / 16777216)
  {
    var a := n / 256;
    var b := a / 256;
    assert b == n / 65536 && b / 256 == n / 16777216;
    assert n == 256 * a + n % 256 && a == 256 * b + a % 256 && b == 256 * (b / 256) + b % 256;
  }

  lemma Le32RoundTrip(n: u32)
    ensures FromLe32(Le32(n)) == n
  {
    FourDigits(n);
  }

  predicate Storable(c: Capture) {
    |c.packet| < 0x1_0000_0000
  }

  function RecordOf(c: Capture): (r: seq<byte>)
    requires Storable(c)
    ensures |r| == 16 + |c.packet|
  {
    Le32(c.seconds) + Le32(c.micros) + Le32(|c.packet|) + Le32(|c.packet|) + c.packet
  }

  function Recorded(captures: seq<Capture>): seq<byte>
    requires forall i :: 0 <= i < |captures| ==> Storable(captures[i])
  {
    if captures == [] then [] else RecordOf(captures[0]) + Recorded(captures[1..])
  }

  /** How many bytes the header at an offset announces. */
  function CapturedAt(data: seq<byte>, offset: nat): nat
    requires offset + 16 <= |data|
  {
    FromLe32(data[offset + 8..offset + 12])
  }

  /** The record there, its packet as far as the data goes. */
  function FrameAt(data: seq<byte>, offset: nat): Capture
    requires offset + 16 <= |data|
  {
    var end := offset + 16 + CapturedAt(data, offset);
    Capture(FromLe32(data[offset..offset + 4]), FromLe32(data[offset + 4..offset + 8]),
            data[offset + 16..if end < |data| then end else |data|])
  }

  /** The records of a capture from an offset on; a header cut short cannot be unpacked, a packet cut short is taken
      as far as it goes. */
  function RecordsFrom(data: seq<byte>, offset: nat): Result<seq<Capture>, string>
    decreases |data| - offset
  {
    if offset >= |data| then Ok([])
    else if offset + 16 > |data| then Err("unpack requires 16 bytes")
    else Behind([FrameAt(data, offset)], RecordsFrom(data, offset + 16 + CapturedAt(data, offset)))
  }

  method SplitRecords(data: seq<byte>, start: nat) returns (r: Result<seq<Capture>, string>)
    ensures r == RecordsFrom(data, start)
  {
    var frames: seq<Capture>, offset := [], start;
    Gathered([], RecordsFrom(data, start));
    while offset < |data|
      invariant RecordsFrom(data, start) ==
        Behind(frames, RecordsFrom(data, offset))
      decreases |data| - offset
    {
      if offset + 16 > |data| {
        return Err("unpack requires 16 bytes");
      }
      var captured, frame := CapturedAt(data, offset), FrameAt(data, offset);
      GatheredOne(frames, frame, RecordsFrom(data, offset + 16 + captured));
      frames := frames + [frame];
      offset := offset + 16 + captured;
    }
    Gathered(frames, Ok([]));
    r := Ok(frames);
  }

  function Behind(frames: seq<Capture>, rest: Result<seq<Capture>, string>): Result<seq<Capture>, string> {
    match rest
    case Err(e) => Err(e)
    case Ok(more) => Ok(frames + more)
  }

  lemma Gathered(frames: seq<Capture>, rest: Result<seq<Capture>, string>)
    ensures Behind([], rest) == rest && Behind(frames, Ok([])) == Ok(frames)
  {
    if rest.Ok? {
      assert [] + rest.value == rest.value;
    }
    assert frames + [] == frames;
  }

  lemma GatheredOne(frames: seq<Capture>, frame: Capture, rest: Result<seq<Capture>, string>)
    ensures Behind(frames, Behind([frame], rest)) == Behind(frames + [frame], rest)
  {
    if rest.Ok? {
      assert frames + ([frame] + rest.value) == (frames + [frame]) + rest.value;
    }
  }

  /** Splitting a capture gives back what was recorded. */
  lemma {:induction false} SplitIsInverse(before: seq<byte>, captures: seq<Capture>)
    requires forall i :: 0 <= i < |captures| ==> Storable(captures[i])
    ensures RecordsFrom(before + Recorded(captures), |before|) == Ok(captures)
    decreases |captures|
  {
    var data := before + Recorded(captures);
    if captures == [] {
    } else {
      var c := captures[0];
      var record := RecordOf(c);
      var rest := Recorded(captures[1..]);
      assert data == (before + record) + rest;
      SplitIsInverse(before + record, captures[1..]);
      RecordAt(before, c, rest, data, Ok(captures[1..]));
      assert captures == [c] + captures[1..];
    }
  }

  /** A record in its place is the first that is split off. */
  lemma RecordAt(before: seq<byte>, c: Capture, rest: seq<byte>, data: seq<byte>, split: Result<seq<Capture>, string>)
    requires Storable(c) && data == before + RecordOf(c) + rest && split == RecordsFrom(data, |before + RecordOf(c)|)
    ensures RecordsFrom(data, |before|) == Behind([c], split)
  {
    HeaderAt(before, c, rest);
    assert CapturedAt(data, |before|) == |c.packet| && FrameAt(data, |before|) == c;
  }

  lemma HeaderAt(before: seq<byte>, c: Capture, rest: seq<byte>)
    requires Storable(c)
    ensures var data, at := before + RecordOf(c) + rest, |before|;
      && data[at..at + 4] == Le32(c.seconds) && FromLe32(data[at..at + 4]) == c.seconds
      && data[at + 4..at + 8] == Le32(c.micros) && FromLe32(data[at + 4..at + 8]) == c.micros
      && data[at + 8..at + 12] == Le32(|c.packet|) && FromLe32(data[at + 8..at + 12]) == |c.packet|
      && data[at + 16..at + 16 + |c.packet|] == c.packet
  {
    Le32RoundTrip(c.seconds);
    Le32RoundTrip(c.micros);
    Le32RoundTrip(|c.packet|);
    var record := RecordOf(c);
    assert record[..4] == Le32(c.seconds) && record[4..8] == Le32(c.micros) && record[8..12] == Le32(|c.packet|);
    assert record[16..] == c.packet;
    Slices(before, record, rest, 0, 4);
    Slices(before, record, rest, 4, 8);
    Slices(before, record, rest, 8, 12);
    Slices(before, record, rest, 16, |record|);
  }

  lemma Slices(before: seq<byte>, record: seq<byte>, rest: seq<byte>, from: nat, to: nat)
    requires from <= to <= |record|
    ensures (before + record + rest)[|before| + from..|before| + to] == record[from..to]
  {
  }
}
