/** NTP on the wire: the header as bytes, timestamps across eras, and a reply checked against its request. */
module Ntp {
  import opened Basics

  type u8 = x: int | 0 <= x < 0x100
  type i8 = x: int | -0x80 <= x < 0x80
  type u32 = x: int | 0 <= x < 0x1_0000_0000
  type u64 = x: int | 0 <= x < 0x1_0000_0000_0000_0000

  const PACKET_LEN := 48
  const UNIX_TO_NTP := 2208988800
  const ERA := 0x1_0000_0000
  const HALF_ERA := 0x8000_0000
  const NANO := 1000000000

  datatype Result<T, E> = Ok(value: T) | Err(error: E)

  datatype Packet = Packet(leap: u8, version: u8, mode: u8, stratum: u8, poll: i8, precision: i8, rootDelay: u32,
                           rootDispersion: u32, referenceId: seq<u8>, referenceTs: u64, originTs: u64, receiveTs: u64,
                           transmitTs: u64)
  {
    /** The reference id is four bytes. */
    ghost predicate Typed() {
      |referenceId| == 4
    }
  }

  datatype NtpError = Short | NotServer(mode: u8) | WrongOrigin | KissOfDeath(code: seq<u8>) | Unsynchronized
    | ZeroTimestamp

  // ----- Big-endian integers -----

  function Pow256(n: nat): (p: nat)
    ensures p > 0
  {
    if n == 0 then 1 else 256 * Pow256(n - 1)
  }

  function ToBig(v: nat, n: nat): (b: seq<u8>)
    ensures |b| == n
  {
    if n == 0 then [] else ToBig(v / 256, n - 1) + [v % 256]
  }

  function FromBig(b: seq<u8>): nat {
    if b == [] then 0 else FromBig(b[..|b| - 1]) * 256 + b[|b| - 1]
  }

  lemma {:induction false} FromBigBound(b: seq<u8>)
    ensures FromBig(b) < Pow256(|b|)
  {
    if b != [] { FromBigBound(b[..|b| - 1]); }
  }

  lemma {:induction false} BigRoundTrip(v: nat, n: nat)
    requires v < Pow256(n)
    ensures FromBig(ToBig(v, n)) == v
  {
    if n > 0 {
      BigRoundTrip(v / 256, n - 1);
      var b := ToBig(v, n);
      assert b[..n - 1] == ToBig(v / 256, n - 1);
    }
  }

  /** The most significant byte comes first. */
  lemma {:induction false} BigEndian(v: nat, n: nat, j: nat)
    requires j < n
    ensures ToBig(v, n)[j] == v / Pow256(n - 1 - j) % 256
  {
    if j < n - 1 {
      BigEndian(v / 256, n - 1, j);
      DivideTwice(v, Pow256(n - 2 - j));
    }
  }

  lemma DivideTwice(v: nat, m: nat)
    requires m > 0
    ensures v / 256 / m == v / (256 * m)
  {
    var q := v / 256;
    var r := (q % m) * 256 + v % 256;
    assert v == q * 256 + v % 256 == (q / m * m + q % m) * 256 + v % 256;
    assert q / m * m * 256 == 256 * m * (q / m);
    QuotientUnique(v, 256 * m, q / m, r);
  }

  lemma {:induction false} BytesRoundTrip(b: seq<u8>)
    ensures ToBig(FromBig(b), |b|) == b
  {
    if b != [] {
      var front, last := b[..|b| - 1], b[|b| - 1];
      BytesRoundTrip(front);
      assert FromBig(b) / 256 == FromBig(front) && FromBig(b) % 256 == last;
      assert b == front + [last];
    }
  }

  lemma Widths()
    ensures Pow256(4) == 0x1_0000_0000 && Pow256(8) == 0x1_0000_0000_0000_0000
  {
    assert Pow256(2) == 65536;
    assert Pow256(6) == 65536 * Pow256(4);
  }

  function U32At(b: seq<u8>, i: nat): u32
    requires i + 4 <= |b|
  {
    FromBigBound(b[i..i + 4]);
    Widths();
    FromBig(b[i..i + 4])
  }

  function U64At(b: seq<u8>, i: nat): u64
    requires i + 8 <= |b|
  {
    FromBigBound(b[i..i + 8]);
    Widths();
    FromBig(b[i..i + 8])
  }

  // ----- The header -----

  function Flags(p: Packet): u8 {
    p.leap % 4 * 64 + p.version % 8 * 8 + p.mode % 8
  }

  function AsU8(x: i8): u8 {
    if x < 0 then x + 256 else x
  }

  function AsI8(x: u8): i8 {
    if x >= 128 then x - 256 else x
  }

  /** The 48 bytes of a header. */
  function Encoded(p: Packet): (b: seq<u8>)
    requires p.Typed()
    ensures |b| == PACKET_LEN
  {
    [Flags(p), p.stratum, AsU8(p.poll), AsU8(p.precision)] + ToBig(p.rootDelay, 4) + ToBig(p.rootDispersion, 4)
      + p.referenceId
    + ToBig(p.referenceTs, 8) + ToBig(p.originTs, 8) + ToBig(p.receiveTs, 8) + ToBig(p.transmitTs, 8)
  }

  /** A header from the first 48 bytes; anything after them is ignored. */
  function Decode(b: seq<u8>): (r: Result<Packet, NtpError>)
    ensures r.Ok? ==> r.value.Typed()
  {
    if |b| < PACKET_LEN then Err(Short) else
      Ok(Packet(b[0] / 64, b[0] / 8 % 8, b[0] % 8, b[1], AsI8(b[2]), AsI8(b[3]), U32At(b, 4), U32At(b, 8), b[12..16],
                U64At(b, 16), U64At(b, 24), U64At(b, 32), U64At(b, 40)))
  }

  /** Overwrite part of a buffer. */
  method CopyAt(b: array<u8>, at: nat, s: seq<u8>)
    requires at + |s| <= b.Length
    modifies b
    ensures b[..] == old(b[..at]) + s + old(b[at + |s|..])
  {
    for i := 0 to |s|
      invariant b[..] == old(b[..at]) + s[..i] + old(b[at + i..])
    {
      b[at + i] := s[i];
    }
    assert s[..|s|] == s;
  }

  method Encode(p: Packet) returns (b: array<u8>)
    requires p.Typed()
    ensures fresh(b) && b[..] == Encoded(p)
  {
    b := new u8[PACKET_LEN](_ => 0);
    b[0], b[1], b[2], b[3] := Flags(p), p.stratum, AsU8(p.poll), AsU8(p.precision);
    ghost var head := [Flags(p), p.stratum, AsU8(p.poll), AsU8(p.precision)];
    assert b[..4] == head;
    FillOn(b, 4, ToBig(p.rootDelay, 4), head);
    FillOn(b, 8, ToBig(p.rootDispersion, 4), b[..8]);
    FillOn(b, 12, p.referenceId, b[..12]);
    FillOn(b, 16, ToBig(p.referenceTs, 8), b[..16]);
    FillOn(b, 24, ToBig(p.originTs, 8), b[..24]);
    FillOn(b, 32, ToBig(p.receiveTs, 8), b[..32]);
    FillOn(b, 40, ToBig(p.transmitTs, 8), b[..40]);
    assert b[..] == b[..48];
  }

  /** Write the next field after the ones already in place. */
  method FillOn(b: array<u8>, at: nat, s: seq<u8>, ghost before: seq<u8>)
    requires at + |s| <= b.Length && b[..at] == before
    modifies b
    ensures b[..at + |s|] == before + s
  {
    CopyAt(b, at, s);
    assert b[..][..at + |s|] == before + s;
  }

  lemma ReadU32(b: seq<u8>, i: nat, v: u32)
    requires i + 4 <= |b| && b[i..i + 4] == ToBig(v, 4)
    ensures U32At(b, i) == v
  {
    Widths();
    BigRoundTrip(v, 4);
  }

  lemma ReadU64(b: seq<u8>, i: nat, v: u64)
    requires i + 8 <= |b| && b[i..i + 8] == ToBig(v, 8)
    ensures U64At(b, i) == v
  {
    Widths();
    BigRoundTrip(v, 8);
  }

  /** Where each field of a header stands in its bytes. */
  ghost predicate Carries(b: seq<u8>, p: Packet) {
    && |b| >= PACKET_LEN && b[0] == Flags(p) && b[1] == p.stratum && b[2] == AsU8(p.poll) && b[3] == AsU8(p.precision)
    && b[4..8] == ToBig(p.rootDelay, 4) && b[8..12] == ToBig(p.rootDispersion, 4) && b[12..16] == p.referenceId
    && b[16..24] == ToBig(p.referenceTs, 8) && b[24..32] == ToBig(p.originTs, 8)
    && b[32..40] == ToBig(p.receiveTs, 8) && b[40..48] == ToBig(p.transmitTs, 8)
  }

  lemma EncodedCarries(p: Packet, tail: seq<u8>)
    requires p.Typed()
    ensures Carries(Encoded(p) + tail, p)
  {
  }

  lemma DecodeCarried(b: seq<u8>, p: Packet)
    requires Carries(b, p)
    ensures Decode(b) == Ok(OnWire(p))
  {
    ReadU32(b, 4, p.rootDelay);
    ReadU32(b, 8, p.rootDispersion);
    ReadU64(b, 16, p.referenceTs);
    ReadU64(b, 24, p.originTs);
    ReadU64(b, 32, p.receiveTs);
    ReadU64(b, 40, p.transmitTs);
    FlagsRoundTrip(p);
  }

  /** The header as the wire can carry it: two bits of leap, three of version and of mode. */
  function OnWire(p: Packet): Packet {
    p.(leap := p.leap % 4, version := p.version % 8, mode := p.mode % 8)
  }

  /**
   * Decoding what was encoded, whatever follows it, gives the header back, but for the bits the wire has no room for.
   */
  lemma DecodeEncoded(p: Packet, tail: seq<u8>)
    requires p.Typed()
    ensures Decode(Encoded(p) + tail) == Ok(OnWire(p))
    ensures Decode(Encoded(p) + tail) == Ok(p) <==> p.leap < 4 && p.version < 8 && p.mode < 8
  {
    EncodedCarries(p, tail);
    DecodeCarried(Encoded(p) + tail, p);
  }

  lemma FlagsRoundTrip(p: Packet)
    ensures Flags(p) / 64 == p.leap % 4 && Flags(p) / 8 % 8 == p.version % 8 && Flags(p) % 8 == p.mode % 8
  {
    var l, v, m := p.leap % 4, p.version % 8, p.mode % 8;
    assert Flags(p) == l * 64 + v * 8 + m;
    QuotientUnique(Flags(p), 64, l, v * 8 + m);
    QuotientUnique(Flags(p), 8, l * 8 + v, m);
    QuotientUnique(l * 8 + v, 8, l, v);
  }

  lemma FlagsOf(x: u8)
    ensures x / 64 % 4 * 64 + x / 8 % 8 % 8 * 8 + x % 8 % 8 == x
  {
  }

  /** Encoding what was decoded gives back the 48 bytes, for every byte string long enough to decode. */
  lemma EncodeDecoded(b: seq<u8>)
    ensures Decode(b).Err? <==> |b| < PACKET_LEN
    ensures Decode(b).Ok? ==> Encoded(Decode(b).value) == b[..PACKET_LEN]
  {
    if |b| >= PACKET_LEN {
      FlagsOf(b[0]);
      BytesRoundTrip(b[4..8]);
      BytesRoundTrip(b[8..12]);
      BytesRoundTrip(b[16..24]);
      BytesRoundTrip(b[24..32]);
      BytesRoundTrip(b[32..40]);
      BytesRoundTrip(b[40..48]);
      Slices(b);
    }
  }

  lemma Slices(b: seq<u8>)
    requires |b| >= PACKET_LEN
    ensures b[..PACKET_LEN] == [b[0], b[1], b[2], b[3]] + b[4..8] + b[8..12] + b[12..16] + b[16..24] + b[24..32]
              + b[32..40] + b[40..48]
  {
  }

  // ----- Timestamps -----

  predicate Leap(year: nat) {
    year % 4 == 0 && (year % 100 != 0 || year % 400 == 0)
  }

  /** Days from the start of 1900 to the start of a year. */
  function DaysSince1900(year: nat): nat
    requires year >= 1900
  {
    if year == 1900 then 0 else DaysSince1900(year - 1) + if Leap(year - 1) then 366 else 365
  }

  lemma {:induction false} LeapCycles(m: nat)
    requires m <= 49
    ensures DaysSince1900(1901 + 4 * m) == 365 + 1461 * m
  {
    if m == 0 {
      assert DaysSince1900(1901) == DaysSince1900(1900) + 365;
    } else {
      LeapCycles(m - 1);
      FourYears(1901 + 4 * (m - 1));
    }
  }

  lemma FourYears(year: nat)
    requires year >= 1901 && year + 4 <= 2100 && year % 4 == 1
    ensures DaysSince1900(year + 4) == DaysSince1900(year) + 1461
  {
    assert !Leap(year) && !Leap(year + 1) && !Leap(year + 2) && Leap(year + 3);
    assert DaysSince1900(year + 2) == DaysSince1900(year) + 730;
  }

  /** The two epochs are as many days apart as the calendar says. */
  lemma EpochsApart()
    ensures UNIX_TO_NTP == DaysSince1900(1970) * 86400
  {
    LeapCycles(17);
    assert DaysSince1900(1970) == DaysSince1900(1969) + 365;
  }

  /** NTP seconds since 1900, eras counted. */
  function NtpSeconds(unix: nat): nat {
    unix / NANO + UNIX_TO_NTP
  }

  function ToNtp(unix: nat): (ts: u64) {
    var frac := unix % NANO * ERA / NANO;
    FractionFits(unix % NANO);
    NtpSeconds(unix) % ERA * ERA + frac
  }

  lemma FractionFits(f: nat)
    requires f < NANO
    ensures 0 <= f * ERA / NANO < ERA
  {
  }

  /** A timestamp is the time since 1900 in units of 2^-32 s, of which 64 bits are kept. */
  lemma TimestampIsFixedPoint(unix: nat)
    ensures ToNtp(unix) == (unix + UNIX_TO_NTP * NANO) * ERA / NANO % TWO64
  {
    var s, f := NtpSeconds(unix), unix % NANO;
    var frac := f * ERA / NANO;
    FractionFits(f);
    assert unix + UNIX_TO_NTP * NANO == s * NANO + f;
    FixedPoint(s, f, frac);
    assert s == s / ERA * ERA + s % ERA;
    assert s * ERA + frac == s / ERA * TWO64 + (s % ERA * ERA + frac);
    QuotientUnique(s * ERA + frac, TWO64, s / ERA, s % ERA * ERA + frac);
  }

  lemma FixedPoint(s: nat, f: nat, frac: nat)
    requires frac == f * ERA / NANO
    ensures (s * NANO + f) * ERA / NANO == s * ERA + frac
  {
    QuotientUnique((s * NANO + f) * ERA, NANO, s * ERA + frac, f * ERA % NANO);
  }

  function FracNs(frac: nat): nat {
    (frac * NANO + HALF_ERA) / ERA
  }

  function AbsDiff(a: nat, b: nat): nat {
    if a >= b then a - b else b - a
  }

  /** The first of the three candidates nearest n. */
  function Nearest(a: nat, b: nat, c: nat, n: nat): nat {
    var ab := if AbsDiff(b, n) < AbsDiff(a, n) then b else a;
    if AbsDiff(c, n) < AbsDiff(ab, n) then c else ab
  }

  /** The seconds of a timestamp in the era before, of, or after the hint, whichever is nearest it. */
  function Resolved(secs: nat, near: nat): nat {
    var era := near / ERA;
    var before := if era == 0 then 0 else era - 1;
    Nearest(before * ERA + secs, era * ERA + secs, (era + 1) * ERA + secs, near)
  }

  function FromNtp(ts: u64, near: nat): nat {
    var best := Resolved(ts / ERA, NtpSeconds(near));
    (if best >= UNIX_TO_NTP then best - UNIX_TO_NTP else 0) * NANO + FracNs(ts % ERA)
  }

  /** The fraction of a second survives exactly. */
  lemma FractionRoundTrip(f: nat)
    requires f < NANO
    ensures FracNs(f * ERA / NANO) == f
  {
  }

  /** The seconds resolve to the one instant of that remainder in the half-open era around the hint. */
  lemma ResolvedIsNearest(secs: nat, near: nat)
    requires secs < ERA && near >= HALF_ERA
    ensures near - HALF_ERA <= Resolved(secs, near) < near + HALF_ERA && Resolved(secs, near) % ERA == secs
  {
    var era, off := near / ERA, near % ERA;
    assert near == era * ERA + off;
  }

  lemma SameRemainderFar(a: nat, b: nat)
    requires a % ERA == b % ERA && a != b
    ensures AbsDiff(a, b) >= ERA
  {
  }

  lemma SplitNtp(unix: nat)
    ensures ToNtp(unix) / ERA == NtpSeconds(unix) % ERA && ToNtp(unix) % ERA == unix % NANO * ERA / NANO
  {
    FractionFits(unix % NANO);
  }

  /**
   * Nanoseconds to a timestamp and back is exact, across every era boundary, if and only if the instant is at most
   * 2^31 s before the hint or less than 2^31 s after it, in whole seconds.
   */
  lemma TimestampRoundTrip(unix: nat, near: nat)
    ensures FromNtp(ToNtp(unix), near) == unix <==> -HALF_ERA <= unix / NANO - near / NANO < HALF_ERA
  {
    var s, n := NtpSeconds(unix), NtpSeconds(near);
    SplitNtp(unix);
    FractionRoundTrip(unix % NANO);
    ResolvedIsNearest(s % ERA, n);
    var best := Resolved(s % ERA, n);
    if best != s { SameRemainderFar(best, s); }
  }

  /** Exactly 2^31 s after the hint the earlier era is picked: the instant is lost. */
  lemma TieLosesAnEra()
    ensures FromNtp(ToNtp(HALF_ERA * NANO), 0) != HALF_ERA * NANO
  {
    TimestampRoundTrip(HALF_ERA * NANO, 0);
  }

  /** A timestamp is the reserved zero only at the first instant of an era. */
  lemma ZeroAtEras(unix: nat)
    ensures ToNtp(unix) == 0 <==> unix % NANO == 0 && NtpSeconds(unix) % ERA == 0
  {
    FractionFits(unix % NANO);
    if unix % NANO >= 1 { assert unix % NANO * ERA >= NANO; }
  }

  // ----- Replies -----

  datatype Reply = Reply(t2: nat, t3: nat, stratum: u8, leap: u8, referenceId: seq<u8>, rootDelay: nat,
                         rootDispersion: nat)

  /** 16.16 seconds as nanoseconds. */
  function ShortToNs(v: u32): nat {
    v * NANO / 0x1_0000
  }

  function ParseReply(b: seq<u8>, cookie: u64, near: nat): Result<Reply, NtpError> {
    var d := Decode(b);
    if d.Err? then Err(d.error) else Vetted(d.value, cookie, near)
  }

  /** What a decoded header says, if it may be believed. */
  function Vetted(p: Packet, cookie: u64, near: nat): Result<Reply, NtpError> {
    if p.mode != 4 then Err(NotServer(p.mode))
    else if p.originTs != cookie then Err(WrongOrigin)
    else if p.stratum == 0 then Err(KissOfDeath(p.referenceId))
    else if p.leap == 3 || p.stratum >= 16 then Err(Unsynchronized)
    else if p.receiveTs == 0 || p.transmitTs == 0 then Err(ZeroTimestamp)
    else Ok(Reply(FromNtp(p.receiveTs, near), FromNtp(p.transmitTs, near), p.stratum, p.leap, p.referenceId,
                  ShortToNs(p.rootDelay), ShortToNs(p.rootDispersion)))
  }

  /** A header a synchronised server may answer the request of that cookie with. */
  ghost predicate Acceptable(p: Packet, cookie: u64) {
    p.mode == 4 && p.originTs == cookie && 1 <= p.stratum < 16 && p.leap < 3 && p.version < 8
  }

  /**
   * r is accepted if and only if the header is acceptable and neither instant is the first of an era; then it reads
   * each instant exactly if and only if that is within half an era of the hint, and the rest of the header as sent.
   */
  ghost predicate Answers(r: Result<Reply, NtpError>, p: Packet, cookie: u64, near: nat, t2: nat, t3: nat) {
    && (r.Ok? <==> Acceptable(p, cookie) && !EraStart(t2) && !EraStart(t3))
    && (r.Ok? ==> (r.value.t2 == t2 <==> Close(t2, near)) && (r.value.t3 == t3 <==> Close(t3, near)))
    && (r.Ok? ==> r.value.stratum == p.stratum && r.value.leap == p.leap && r.value.referenceId == p.referenceId)
    && (r.Ok? ==> ShortReads(p.rootDelay, r.value.rootDelay) && ShortReads(p.rootDispersion, r.value.rootDispersion))
    && (r == Err(KissOfDeath(p.referenceId)) <==> p.mode == 4 && p.originTs == cookie && p.stratum == 0)
  }

  lemma ServerReplyParses(p: Packet, tail: seq<u8>, cookie: u64, near: nat, t2: nat, t3: nat)
    requires p.Typed() && p.leap < 4 && p.version < 8 && p.mode < 8
    requires p.receiveTs == ToNtp(t2) && p.transmitTs == ToNtp(t3)
    ensures Answers(ParseReply(Encoded(p) + tail, cookie, near), p, cookie, near, t2, t3)
  {
    DecodeEncoded(p, tail);
    StampIsRead(t2, near, p.receiveTs);
    StampIsRead(t3, near, p.transmitTs);
    VettedAnswers(p, cookie, near, t2, t3);
  }

  lemma VettedAnswers(p: Packet, cookie: u64, near: nat, t2: nat, t3: nat)
    requires p.leap < 4 && p.version < 8 && StampReads(p.receiveTs, t2, near) && StampReads(p.transmitTs, t3, near)
    ensures Answers(Vetted(p, cookie, near), p, cookie, near, t2, t3)
  {
    ShortIsRead(p.rootDelay);
    ShortIsRead(p.rootDispersion);
  }

  /** The timestamp ts of the instant t is zero only at the start of an era, and read exactly only near the hint. */
  ghost predicate StampReads(ts: u64, t: nat, near: nat) {
    (ts == 0 <==> EraStart(t)) && (FromNtp(ts, near) == t <==> Close(t, near))
  }

  lemma StampIsRead(t: nat, near: nat, ts: u64)
    requires ts == ToNtp(t)
    ensures StampReads(ts, t, near)
  {
    TimestampRoundTrip(t, near);
    ZeroAtEras(t);
  }

  lemma ShortIsRead(v: u32)
    ensures ShortReads(v, ShortToNs(v))
  {
  }

  /** ns is the whole nanoseconds of v in units of 2^-16 s. */
  ghost predicate ShortReads(v: u32, ns: nat) {
    ns * 0x1_0000 <= v * NANO < (ns + 1) * 0x1_0000
  }

  ghost predicate EraStart(unix: nat) {
    unix % NANO == 0 && NtpSeconds(unix) % ERA == 0
  }

  ghost predicate Close(unix: nat, near: nat) {
    -HALF_ERA <= unix / NANO - near / NANO < HALF_ERA
  }
}
