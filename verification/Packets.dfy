/** The packets a server sends, and the parser that takes one from a buffer. */
module Packets {
  import opened Bytes
  import opened Parsed
  import opened Uvarint
  import opened ReadEx
  import opened ColumnCodec
  import opened BlockCodec
  import opened ColumnIo

  const MIN_REVISION_WITH_TOTAL_ROWS: nat := 51554
  const MIN_REVISION_WITH_TIMEZONE: nat := 54058
  const MIN_REVISION_WITH_DISPLAY_NAME: nat := 54372
  const MIN_REVISION_WITH_VERSION_PATCH: nat := 54401
  const MIN_REVISION_WITH_WRITE_INFO: nat := 54420

  const UTC: Bytes := [85, 84, 67]

  datatype ServerInfo = ServerInfo(
    name: Bytes, major: nat, minor: nat, revision: nat, timezone: Bytes, displayName: Bytes, patch: nat)

  /** Greeting, pong and end of stream carry the transport `S` to whoever takes them. */
  datatype Packet<+S> =
    | Hello(transport: S, server: ServerInfo)
    | Pong(transport: S)
    | Progress(rows: nat, bytes: nat, totalRows: nat, writtenRows: nat, writtenBytes: nat)
    | ProfileInfo(rows: nat, blocks: nat, bytes: nat, appliedLimit: bool, beforeLimit: nat, calculated: bool)
    | TableColumns(tableName: Bytes, columns: Bytes)
    | Exception(code: nat, name: Bytes, message: Bytes, stackTrace: Bytes)
    | Data(block: Block)
    | ProfileEvents(block: Block)
    | Eof(transport: S)

  /** `bind`: the packets that carry the transport take it out of its place. */
  predicate Carries<S>(p: Packet<S>) { p.Hello? || p.Pong? || p.Eof? }

  function Bind<S>(p: Packet<()>, transport: Option<S>): (r: Packet<S>)
    requires Carries(p) ==> transport.Some?
    ensures Carries(r) <==> Carries(p)
    ensures Carries(r) ==> r.transport == transport.value
  {
    match p
    case Hello(_, server) => Hello(transport.value, server)
    case Pong(_) => Pong(transport.value)
    case Eof(_) => Eof(transport.value)
    case Progress(a, b, c, d, e) => Progress(a, b, c, d, e)
    case ProfileInfo(a, b, c, d, e, f) => ProfileInfo(a, b, c, d, e, f)
    case TableColumns(a, b) => TableColumns(a, b)
    case Exception(a, b, c, d) => Exception(a, b, c, d)
    case Data(b) => Data(b)
    case ProfileEvents(b) => ProfileEvents(b)
  }

  /** What a connection knows of its server. `zones` are the time zone names that exist. */
  datatype Info = Info(timezone: Option<Bytes>, revision: nat, zones: set<Bytes>)

  // ----- the packet bodies -----

  function ReadZone(d: Bytes, pos: nat, revision: nat, zones: set<Bytes>): (r: Parsed<Bytes>)
    requires pos <= |d|
    ensures r.Within(pos, d)
  {
    if revision < MIN_REVISION_WITH_TIMEZONE then Ok(UTC, pos)
    else
      var (z, p) :- ReadString(d, pos);
      if z in zones then Ok(z, p) else Err(UnknownTimezone, p)
  }

  function ReadStringSince(d: Bytes, pos: nat, revision: nat, since: nat): (r: Parsed<Bytes>)
    requires pos <= |d|
    ensures r.Within(pos, d)
  {
    if revision >= since then ReadString(d, pos) else Ok([], pos)
  }

  function ReadUvarintSince(d: Bytes, pos: nat, revision: nat, since: nat): (r: Parsed<nat>)
    requires pos <= |d|
    ensures r.Within(pos, d)
  {
    if revision >= since then ReadUvarint(d, pos) else Ok(0, pos)
  }

  /** Which fields follow depends on the revision that the packet itself announces. */
  function ReadHello(d: Bytes, pos: nat, zones: set<Bytes>): (r: Parsed<Packet<()>>)
    requires pos <= |d|
    ensures r.Within(pos, d)
  {
    var (name, p1) :- ReadString(d, pos);
    var (major, p2) :- ReadUvarint(d, p1);
    var (minor, p3) :- ReadUvarint(d, p2);
    var (revision, p4) :- ReadUvarint(d, p3);
    var (zone, p5) :- ReadZone(d, p4, revision, zones);
    var (display, p6) :- ReadStringSince(d, p5, revision, MIN_REVISION_WITH_DISPLAY_NAME);
    var (patch, p7) :- ReadUvarintSince(d, p6, revision, MIN_REVISION_WITH_VERSION_PATCH);
    Ok(Hello((), ServerInfo(name, major, minor, revision, zone, display, patch)), p7)
  }

  function ReadProgress(d: Bytes, pos: nat, revision: nat): (r: Parsed<Packet<()>>)
    requires pos <= |d|
    ensures r.Within(pos, d)
  {
    var (rows, p1) :- ReadUvarint(d, pos);
    var (bytes, p2) :- ReadUvarint(d, p1);
    var (total, p3) :- ReadUvarintSince(d, p2, revision, MIN_REVISION_WITH_TOTAL_ROWS);
    var (wrows, p4) :- ReadUvarintSince(d, p3, revision, MIN_REVISION_WITH_WRITE_INFO);
    var (wbytes, p5) :- ReadUvarintSince(d, p4, revision, MIN_REVISION_WITH_WRITE_INFO);
    Ok(Progress(rows, bytes, total, wrows, wbytes), p5)
  }

  function ReadProfileInfo(d: Bytes, pos: nat): (r: Parsed<Packet<()>>)
    requires pos <= |d|
    ensures r.Within(pos, d)
  {
    var (rows, p1) :- ReadUvarint(d, pos);
    var (blocks, p2) :- ReadUvarint(d, p1);
    var (bytes, p3) :- ReadUvarint(d, p2);
    var (applied, p4) :- ReadWord(d, p3, 1);
    var (before, p5) :- ReadUvarint(d, p4);
    var (calculated, p6) :- ReadWord(d, p5, 1);
    Ok(ProfileInfo(rows, blocks, bytes, applied != 0, before, calculated != 0), p6)
  }

  function ReadTableColumns(d: Bytes, pos: nat): (r: Parsed<Packet<()>>)
    requires pos <= |d|
    ensures r.Within(pos, d)
  {
    var (name, p1) :- ReadString(d, pos);
    var (columns, p2) :- ReadString(d, p1);
    Ok(TableColumns(name, columns), p2)
  }

  function ReadException(d: Bytes, pos: nat): (r: Parsed<Packet<()>>)
    requires pos <= |d|
    ensures r.Within(pos, d)
  {
    var (code, p1) :- ReadWord(d, pos, 4);
    var (name, p2) :- ReadString(d, p1);
    var (message, p3) :- ReadString(d, p2);
    var (trace, p4) :- ReadString(d, p3);
    Ok(Exception(code, name, message, trace), p4)
  }

  /** A block behind the name of a temporary table; none before the server has said hello. */
  function ReadTableBlock(d: Bytes, pos: nat, info: Info): (r: Parsed<Block>)
    requires pos <= |d|
    ensures r.Within(pos, d)
  {
    if info.timezone.None? then Err(UnexpectedPacket, pos)
    else
      var (_, p) :- SkipString(d, pos);
      RawLoad(d, p, info.revision)
  }

  function ReadBody(d: Bytes, pos: nat, tag: nat, info: Info): (r: Parsed<Packet<()>>)
    requires pos <= |d|
    ensures r.Within(pos, d)
  {
    if tag == 0 then ReadHello(d, pos, info.zones)
    else if tag == 4 then Ok(Pong(()), pos)
    else if tag == 3 then ReadProgress(d, pos, info.revision)
    else if tag == 6 then ReadProfileInfo(d, pos)
    else if tag == 11 then ReadTableColumns(d, pos)
    else if tag == 2 then ReadException(d, pos)
    else if tag == 1 || tag == 7 || tag == 8 then
      var (b, p) :- ReadTableBlock(d, pos, info);
      Ok(Data(b), p)
    else if tag == 14 then
      var (b, p) :- ReadTableBlock(d, pos, info);
      Ok(ProfileEvents(b), p)
    else if tag == 5 then Ok(Eof(()), pos)
    else Err(UnknownPacket(tag), pos)
  }

  /** `parse_packet`: a packet takes at least one byte. */
  function ReadPacket(d: Bytes, pos: nat, info: Info): (r: Parsed<Packet<()>>)
    requires pos <= |d|
    ensures r.Within(pos, d)
    ensures !r.WouldBlock? ==> pos < r.pos
  {
    var (tag, p) :- ReadUvarint(d, pos);
    ReadBody(d, p, tag, info)
  }

  /** What a packet tells about the server. */
  function Learn(info: Info, p: Packet<()>): Info {
    if p.Hello? then info.(timezone := Some(p.server.timezone), revision := p.server.revision) else info
  }

  // ----- what a server writes -----

  function StringSinceBytes(s: Bytes, revision: nat, since: nat): Bytes {
    if revision >= since then Blob(s) else []
  }

  function UvarintSinceBytes(x: nat, revision: nat, since: nat): Bytes {
    if revision >= since then Leb(x) else []
  }

  predicate Text(s: Bytes) { |s| < U64_LIMIT && ValidUtf8(s) }

  lemma StringSinceAt(s: Bytes, revision: nat, since: nat, d: Bytes, pos: nat)
    requires Text(s) && pos <= |d| && Holds(d, pos, StringSinceBytes(s, revision, since))
    ensures ReadStringSince(d, pos, revision, since)
         == Ok(if revision >= since then s else [], pos + |StringSinceBytes(s, revision, since)|)
  {
    if revision >= since { StringAt(d, pos, s); }
  }

  lemma UvarintSinceAt(x: nat, revision: nat, since: nat, d: Bytes, pos: nat)
    requires x < U64_LIMIT && pos <= |d| && Holds(d, pos, UvarintSinceBytes(x, revision, since))
    ensures ReadUvarintSince(d, pos, revision, since)
         == Ok(if revision >= since then x else 0, pos + |UvarintSinceBytes(x, revision, since)|)
  {
    if revision >= since { UvarintRoundTrip(x, d, pos); }
  }

  /** The greeting of a server of some revision leaves out the fields that came later. */
  function HelloBytes(s: ServerInfo): Bytes {
    Blob(s.name) + (Leb(s.major) + (Leb(s.minor) + (Leb(s.revision) + (
      StringSinceBytes(s.timezone, s.revision, 54058) + (
      StringSinceBytes(s.displayName, s.revision, 54372)
      + UvarintSinceBytes(s.patch, s.revision, 54401))))))
  }

  predicate WritableServer(s: ServerInfo) {
    Text(s.name) && s.major < U64_LIMIT && s.minor < U64_LIMIT && s.revision < U64_LIMIT
    && Text(s.timezone) && Text(s.displayName) && s.patch < U64_LIMIT
  }

  /** What a client learns of a server: defaults stand for the fields left out. */
  function Known(s: ServerInfo): ServerInfo {
    s.(timezone := if s.revision >= 54058 then s.timezone else [85, 84, 67],
       displayName := if s.revision >= 54372 then s.displayName else [],
       patch := if s.revision >= 54401 then s.patch else 0)
  }

  lemma ZoneAt(s: ServerInfo, zones: set<Bytes>, d: Bytes, pos: nat)
    requires WritableServer(s) && pos <= |d|
    requires Holds(d, pos, StringSinceBytes(s.timezone, s.revision, 54058))
    ensures var p := pos + |StringSinceBytes(s.timezone, s.revision, 54058)|;
      ReadZone(d, pos, s.revision, zones)
      == if s.revision >= 54058 && s.timezone !in zones then Err(UnknownTimezone, p)
         else Ok(Known(s).timezone, p)
  {
    if s.revision >= 54058 { StringAt(d, pos, s.timezone); }
  }

  /** A greeting is read as what its server wrote, up to the fields its revision has; an
      unknown time zone is refused. */
  lemma HelloAt(s: ServerInfo, zones: set<Bytes>, d: Bytes, pos: nat)
    requires WritableServer(s) && Holds(d, pos, HelloBytes(s)) && pos <= |d|
    ensures var r := ReadHello(d, pos, zones);
      if s.revision >= 54058 && s.timezone !in zones then r.Err? && r.error == UnknownTimezone
      else r == Ok(Hello((), Known(s)), pos + |HelloBytes(s)|)
  {
    hide *;
    var zone := StringSinceBytes(s.timezone, s.revision, 54058);
    var display := StringSinceBytes(s.displayName, s.revision, 54372);
    var p1 := pos + |Blob(s.name)|;
    var p2 := p1 + |Leb(s.major)|;
    var p3 := p2 + |Leb(s.minor)|;
    var p4 := p3 + |Leb(s.revision)|;
    var p5 := p4 + |zone|;
    var p6 := p5 + |display|;
    HelloParts(s, d, pos);
    Writable(s);
    StringAt(d, pos, s.name);
    UvarintRoundTrip(s.major, d, p1);
    UvarintRoundTrip(s.minor, d, p2);
    UvarintRoundTrip(s.revision, d, p3);
    ZoneAt(s, zones, d, p4);
    StringSinceAt(s.displayName, s.revision, 54372, d, p5);
    UvarintSinceAt(s.patch, s.revision, 54401, d, p6);
    HelloReads(s, zones, d, pos, p1, p2, p3, p4, p5, p6);
  }

  lemma Writable(s: ServerInfo)
    requires WritableServer(s)
    ensures |s.name| < U64_LIMIT && ValidUtf8(s.name)
    ensures s.major < U64_LIMIT && s.minor < U64_LIMIT && s.revision < U64_LIMIT
    ensures Text(s.displayName) && s.patch < U64_LIMIT
    ensures Known(s).displayName == if s.revision >= 54372 then s.displayName else []
    ensures Known(s).patch == if s.revision >= 54401 then s.patch else 0
  {
    hide ValidUtf8;
  }

  /** A greeting is its seven reads; a refused zone is the last of them. */
  lemma HelloReads(s: ServerInfo, zones: set<Bytes>, d: Bytes, pos: nat, p1: nat, p2: nat, p3: nat, p4: nat,
        p5: nat, p6: nat)
    requires pos <= p1 <= p2 <= p3 <= p4 <= p5 <= p6 <= |d|
    requires ReadString(d, pos) == Ok(s.name, p1) && ReadUvarint(d, p1) == Ok(s.major, p2)
    requires ReadUvarint(d, p2) == Ok(s.minor, p3) && ReadUvarint(d, p3) == Ok(s.revision, p4)
    requires var zone := ReadZone(d, p4, s.revision, zones);
      (zone.Ok? && zone.value == Known(s).timezone && zone.pos == p5) || (zone.Err? && zone.error == UnknownTimezone)
    requires ReadStringSince(d, p5, s.revision, 54372).Ok?
    requires ReadStringSince(d, p5, s.revision, 54372).value == Known(s).displayName
    requires ReadStringSince(d, p5, s.revision, 54372).pos == p6
    requires ReadUvarintSince(d, p6, s.revision, 54401).Ok?
    requires ReadUvarintSince(d, p6, s.revision, 54401).value == Known(s).patch
    ensures var zone, r := ReadZone(d, p4, s.revision, zones), ReadHello(d, pos, zones);
      if zone.Err? then r.Err? && r.error == UnknownTimezone
      else r == Ok(Hello((), Known(s)), ReadUvarintSince(d, p6, s.revision, 54401).pos)
  {
    hide ReadUvarint, ReadString, ReadZone, ReadStringSince, ReadUvarintSince;
  }

  lemma HelloParts(s: ServerInfo, d: Bytes, pos: nat)
    requires Holds(d, pos, HelloBytes(s))
    ensures var zone := StringSinceBytes(s.timezone, s.revision, 54058);
      var display := StringSinceBytes(s.displayName, s.revision, 54372);
      var patch := UvarintSinceBytes(s.patch, s.revision, 54401);
      var p1 := pos + |Blob(s.name)|; var p2 := p1 + |Leb(s.major)|; var p3 := p2 + |Leb(s.minor)|;
      var p4 := p3 + |Leb(s.revision)|; var p5 := p4 + |zone|; var p6 := p5 + |display|;
      Holds(d, pos, Blob(s.name)) && Holds(d, p1, Leb(s.major)) && Holds(d, p2, Leb(s.minor))
      && Holds(d, p3, Leb(s.revision))
      && Holds(d, p4, zone) && Holds(d, p5, display) && Holds(d, p6, patch)
      && p6 <= |d| && p6 + |patch| == pos + |HelloBytes(s)|
  {
    hide Holds, Leb, Blob, StringSinceBytes, UvarintSinceBytes;
    var zone := StringSinceBytes(s.timezone, s.revision, 54058);
    var display := StringSinceBytes(s.displayName, s.revision, 54372);
    var patch := UvarintSinceBytes(s.patch, s.revision, 54401);
    var p1 := pos + |Blob(s.name)|;
    var p2 := p1 + |Leb(s.major)|;
    var p3 := p2 + |Leb(s.minor)|;
    var p4 := p3 + |Leb(s.revision)|;
    var p5 := p4 + |zone|;
    HoldsSplit(d, pos, Blob(s.name), Leb(s.major) + (Leb(s.minor) + (Leb(s.revision) + (zone + (display + patch)))));
    HoldsSplit(d, p1, Leb(s.major), Leb(s.minor) + (Leb(s.revision) + (zone + (display + patch))));
    HoldsSplit(d, p2, Leb(s.minor), Leb(s.revision) + (zone + (display + patch)));
    HoldsSplit(d, p3, Leb(s.revision), zone + (display + patch));
    HoldsSplit(d, p4, zone, display + patch);
    HoldsSplit(d, p5, display, patch);
    HoldsFits(d, p5 + |display|, patch);
  }

  function ProgressBytes(p: Packet<()>, revision: nat): Bytes
    requires p.Progress?
  {
    Leb(p.rows) + (Leb(p.bytes) + (UvarintSinceBytes(p.totalRows, revision, 51554) + (
      UvarintSinceBytes(p.writtenRows, revision, 54420)
      + UvarintSinceBytes(p.writtenBytes, revision, 54420))))
  }

  /** Progress is read with zeros for the counters that the revision does not have. */
  lemma ProgressAt(p: Packet<()>, revision: nat, d: Bytes, pos: nat)
    requires p.Progress? && p.rows < U64_LIMIT && p.bytes < U64_LIMIT && p.totalRows < U64_LIMIT
    requires p.writtenRows < U64_LIMIT && p.writtenBytes < U64_LIMIT
    requires Holds(d, pos, ProgressBytes(p, revision)) && pos <= |d|
    ensures ReadProgress(d, pos, revision)
         == Ok(Progress(p.rows, p.bytes, if revision >= 51554 then p.totalRows else 0,
                        if revision >= 54420 then p.writtenRows else 0,
                        if revision >= 54420 then p.writtenBytes else 0),
               pos + |ProgressBytes(p, revision)|)
  {
    hide *;
    var total := UvarintSinceBytes(p.totalRows, revision, 51554);
    var rows := UvarintSinceBytes(p.writtenRows, revision, 54420);
    var bytes := UvarintSinceBytes(p.writtenBytes, revision, 54420);
    var p1 := pos + |Leb(p.rows)|;
    var p2 := p1 + |Leb(p.bytes)|;
    var p3 := p2 + |total|;
    ProgressParts(p, revision, d, pos);
    UvarintRoundTrip(p.rows, d, pos);
    UvarintRoundTrip(p.bytes, d, p1);
    UvarintSinceAt(p.totalRows, revision, 51554, d, p2);
    UvarintSinceAt(p.writtenRows, revision, 54420, d, p3);
    UvarintSinceAt(p.writtenBytes, revision, 54420, d, p3 + |rows|);
    ProgressReads(revision, d, pos, p1, p2, p3, p3 + |rows|);
  }

  /** Progress is its five reads. */
  lemma ProgressReads(revision: nat, d: Bytes, pos: nat, p1: nat, p2: nat, p3: nat, p4: nat)
    requires pos <= p1 <= p2 <= p3 <= p4 <= |d|
    requires ReadUvarint(d, pos).Ok? && ReadUvarint(d, pos).pos == p1
    requires ReadUvarint(d, p1).Ok? && ReadUvarint(d, p1).pos == p2
    requires var r := ReadUvarintSince(d, p2, revision, 51554); r.Ok? && r.pos == p3
    requires var r := ReadUvarintSince(d, p3, revision, 54420); r.Ok? && r.pos == p4
    requires ReadUvarintSince(d, p4, revision, 54420).Ok?
    ensures var last := ReadUvarintSince(d, p4, revision, 54420);
      ReadProgress(d, pos, revision)
      == Ok(Progress(ReadUvarint(d, pos).value, ReadUvarint(d, p1).value,
                     ReadUvarintSince(d, p2, revision, 51554).value,
                     ReadUvarintSince(d, p3, revision, 54420).value, last.value), last.pos)
  {
    hide ReadUvarint, ReadUvarintSince;
  }

  lemma ProgressParts(p: Packet<()>, revision: nat, d: Bytes, pos: nat)
    requires p.Progress? && Holds(d, pos, ProgressBytes(p, revision))
    ensures var total := UvarintSinceBytes(p.totalRows, revision, 51554);
      var rows := UvarintSinceBytes(p.writtenRows, revision, 54420);
      var bytes := UvarintSinceBytes(p.writtenBytes, revision, 54420);
      var p1 := pos + |Leb(p.rows)|; var p2 := p1 + |Leb(p.bytes)|; var p3 := p2 + |total|; var p4 := p3 + |rows|;
      Holds(d, pos, Leb(p.rows)) && Holds(d, p1, Leb(p.bytes)) && Holds(d, p2, total) && Holds(d, p3, rows)
      && Holds(d, p4, bytes) && p4 <= |d| && p4 + |bytes| == pos + |ProgressBytes(p, revision)|
  {
    hide Holds, Leb, UvarintSinceBytes;
    var total := UvarintSinceBytes(p.totalRows, revision, 51554);
    var rows := UvarintSinceBytes(p.writtenRows, revision, 54420);
    var bytes := UvarintSinceBytes(p.writtenBytes, revision, 54420);
    var p1 := pos + |Leb(p.rows)|;
    var p2 := p1 + |Leb(p.bytes)|;
    var p3 := p2 + |total|;
    HoldsSplit(d, pos, Leb(p.rows), Leb(p.bytes) + (total + (rows + bytes)));
    HoldsSplit(d, p1, Leb(p.bytes), total + (rows + bytes));
    HoldsSplit(d, p2, total, rows + bytes);
    HoldsSplit(d, p3, rows, bytes);
    HoldsFits(d, p3 + |rows|, bytes);
  }

  function BoolByte(b: bool): nat { if b then 1 else 0 }

  function ProfileInfoBytes(p: Packet<()>): Bytes
    requires p.ProfileInfo?
  {
    Leb(p.rows) + (Leb(p.blocks) + (Leb(p.bytes) + (ToLE(1, BoolByte(p.appliedLimit)) + (
      Leb(p.beforeLimit) + ToLE(1, BoolByte(p.calculated))))))
  }

  lemma ProfileInfoAt(p: Packet<()>, d: Bytes, pos: nat)
    requires p.ProfileInfo? && p.rows < U64_LIMIT && p.blocks < U64_LIMIT && p.bytes < U64_LIMIT
    requires p.beforeLimit < U64_LIMIT
    requires Holds(d, pos, ProfileInfoBytes(p)) && pos <= |d|
    ensures ReadProfileInfo(d, pos) == Ok(p, pos + |ProfileInfoBytes(p)|)
  {
    hide *;
    var p1 := pos + |Leb(p.rows)|;
    var p2 := p1 + |Leb(p.blocks)|;
    var p3 := p2 + |Leb(p.bytes)|;
    var p5 := p3 + 1 + |Leb(p.beforeLimit)|;
    ProfileInfoParts(p, d, pos);
    UvarintRoundTrip(p.rows, d, pos);
    UvarintRoundTrip(p.blocks, d, p1);
    UvarintRoundTrip(p.bytes, d, p2);
    FlagAt(d, p3, p.appliedLimit);
    UvarintRoundTrip(p.beforeLimit, d, p3 + 1);
    FlagAt(d, p5, p.calculated);
    ProfileInfoReads(p, d, pos, p1, p2, p3, p5);
  }

  lemma FlagAt(d: Bytes, pos: nat, b: bool)
    requires pos <= |d| && Holds(d, pos, ToLE(1, BoolByte(b)))
    ensures ReadWord(d, pos, 1) == Ok(BoolByte(b), pos + 1) && (BoolByte(b) != 0 <==> b)
  {
    Pow256Of8();
    WordAt(d, pos, 1, BoolByte(b));
  }

  /** Profile info is its six reads. */
  lemma ProfileInfoReads(p: Packet<()>, d: Bytes, pos: nat, p1: nat, p2: nat, p3: nat, p5: nat)
    requires p.ProfileInfo? && pos <= p1 <= p2 <= p3 < p5 < |d| && p3 + 1 <= p5
    requires ReadUvarint(d, pos) == Ok(p.rows, p1) && ReadUvarint(d, p1) == Ok(p.blocks, p2)
    requires ReadUvarint(d, p2) == Ok(p.bytes, p3) && ReadWord(d, p3, 1) == Ok(BoolByte(p.appliedLimit), p3 + 1)
    requires ReadUvarint(d, p3 + 1) == Ok(p.beforeLimit, p5)
    requires ReadWord(d, p5, 1) == Ok(BoolByte(p.calculated), p5 + 1)
    ensures ReadProfileInfo(d, pos) == Ok(p, p5 + 1)
  {
    hide ReadUvarint, ReadWord;
  }

  lemma ProfileInfoParts(p: Packet<()>, d: Bytes, pos: nat)
    requires p.ProfileInfo? && Holds(d, pos, ProfileInfoBytes(p)) && pos <= |d|
    ensures var a, b := ToLE(1, BoolByte(p.appliedLimit)), ToLE(1, BoolByte(p.calculated));
      var p1 := pos + |Leb(p.rows)|; var p2 := p1 + |Leb(p.blocks)|; var p3 := p2 + |Leb(p.bytes)|;
      var p5 := p3 + 1 + |Leb(p.beforeLimit)|;
      Holds(d, pos, Leb(p.rows)) && Holds(d, p1, Leb(p.blocks)) && Holds(d, p2, Leb(p.bytes)) && Holds(d, p3, a)
      && Holds(d, p3 + 1, Leb(p.beforeLimit)) && Holds(d, p5, b)
      && p5 < |d| && p5 + 1 == pos + |ProfileInfoBytes(p)|
  {
    hide Holds, Leb, ToLE, BoolByte;
    SixParts(d, pos, Leb(p.rows), Leb(p.blocks), Leb(p.bytes), ToLE(1, BoolByte(p.appliedLimit)),
             Leb(p.beforeLimit), ToLE(1, BoolByte(p.calculated)));
  }

  lemma SixParts(d: Bytes, pos: nat, a: Bytes, b: Bytes, c: Bytes, e: Bytes, f: Bytes, g: Bytes)
    requires Holds(d, pos, a + (b + (c + (e + (f + g)))))
    ensures var p1 := pos + |a|; var p2 := p1 + |b|; var p3 := p2 + |c|; var p4 := p3 + |e|; var p5 := p4 + |f|;
      Holds(d, pos, a) && Holds(d, p1, b) && Holds(d, p2, c) && Holds(d, p3, e) && Holds(d, p4, f) && Holds(d, p5, g)
      && p5 + |g| <= |d|
  {
    hide Holds;
    HoldsSplit(d, pos, a, b + (c + (e + (f + g))));
    HoldsSplit(d, pos + |a|, b, c + (e + (f + g)));
    HoldsSplit(d, pos + |a| + |b|, c, e + (f + g));
    HoldsSplit(d, pos + |a| + |b| + |c|, e, f + g);
    HoldsSplit(d, pos + |a| + |b| + |c| + |e|, f, g);
    HoldsFits(d, pos + |a| + |b| + |c| + |e| + |f|, g);
  }

  function TableColumnsBytes(p: Packet<()>): Bytes
    requires p.TableColumns?
  {
    Blob(p.tableName) + Blob(p.columns)
  }

  lemma TableColumnsAt(p: Packet<()>, d: Bytes, pos: nat)
    requires p.TableColumns? && Text(p.tableName) && Text(p.columns)
    requires Holds(d, pos, TableColumnsBytes(p)) && pos <= |d|
    ensures ReadTableColumns(d, pos) == Ok(p, pos + |TableColumnsBytes(p)|)
  {
    hide ReadString, Holds, Blob, ValidUtf8;
    HoldsSplit(d, pos, Blob(p.tableName), Blob(p.columns));
    HoldsFits(d, pos + |Blob(p.tableName)|, Blob(p.columns));
    StringAt(d, pos, p.tableName);
    StringAt(d, pos + |Blob(p.tableName)|, p.columns);
  }

  function ExceptionBytes(p: Packet<()>): Bytes
    requires p.Exception?
  {
    ToLE(4, p.code) + (Blob(p.name) + (Blob(p.message) + Blob(p.stackTrace)))
  }

  lemma ExceptionAt(p: Packet<()>, d: Bytes, pos: nat)
    requires p.Exception? && p.code < 0x1_0000_0000 && Text(p.name) && Text(p.message) && Text(p.stackTrace)
    requires Holds(d, pos, ExceptionBytes(p)) && pos <= |d|
    ensures ReadException(d, pos) == Ok(p, pos + |ExceptionBytes(p)|)
  {
    Pow256Of8();
    hide ReadString, ReadWord, Holds, Blob, ToLE, Pow256, ValidUtf8;
    var p1 := pos + 4;
    var p2 := p1 + |Blob(p.name)|;
    var p3 := p2 + |Blob(p.message)|;
    HoldsSplit(d, pos, ToLE(4, p.code), Blob(p.name) + (Blob(p.message) + Blob(p.stackTrace)));
    HoldsSplit(d, p1, Blob(p.name), Blob(p.message) + Blob(p.stackTrace));
    HoldsSplit(d, p2, Blob(p.message), Blob(p.stackTrace));
    HoldsFits(d, p3, Blob(p.stackTrace));
    WordAt(d, pos, 4, p.code);
    StringAt(d, p1, p.name);
    StringAt(d, p2, p.message);
    StringAt(d, p3, p.stackTrace);
  }

  // ----- which packet a tag stands for -----

  /** A packet is its tag and what the tag calls for. */
  lemma TagThen(tag: Byte, info: Info, d: Bytes, pos: nat)
    requires tag < 0x80 && pos < |d| && d[pos] == tag
    ensures ReadPacket(d, pos, info) == ReadBody(d, pos + 1, tag, info)
  {
    hide ReadBody, ReadUvarint;
    SmallLeb(tag);
    UvarintRoundTrip(tag, d, pos);
  }

  /** The packets of one byte. */
  lemma BareAt(info: Info, d: Bytes, pos: nat)
    requires pos < |d|
    ensures d[pos] == 4 ==> ReadPacket(d, pos, info) == Ok(Pong(()), pos + 1)
    ensures d[pos] == 5 ==> ReadPacket(d, pos, info) == Ok(Eof(()), pos + 1)
  {
    hide ReadPacket;
    if d[pos] == 4 || d[pos] == 5 { TagThen(d[pos], info, d, pos); }
  }

  lemma HelloPacketAt(s: ServerInfo, info: Info, d: Bytes, pos: nat)
    requires WritableServer(s) && Holds(d, pos, [0] + HelloBytes(s))
    ensures var r := ReadPacket(d, pos, info);
      if s.revision >= 54058 && s.timezone !in info.zones then r.Err? && r.error == UnknownTimezone
      else r == Ok(Hello((), Known(s)), pos + 1 + |HelloBytes(s)|)
  {
    hide ReadPacket, ReadHello, HelloBytes, Known, WritableServer;
    HoldsSplit(d, pos, [0], HelloBytes(s));
    assert d[pos] == d[pos..pos + 1][0];
    TagThen(0, info, d, pos);
    HelloAt(s, info.zones, d, pos + 1);
  }

  /** The packets with a body of their own other than a block. */
  predicate WritablePacket(p: Packet<()>) {
    match p
    case Progress(a, b, c, d, e) =>
      a < U64_LIMIT && b < U64_LIMIT && c < U64_LIMIT && d < U64_LIMIT && e < U64_LIMIT
    case ProfileInfo(a, b, c, _, d, _) => a < U64_LIMIT && b < U64_LIMIT && c < U64_LIMIT && d < U64_LIMIT
    case TableColumns(a, b) => Text(a) && Text(b)
    case Exception(code, a, b, c) => code < 0x1_0000_0000 && Text(a) && Text(b) && Text(c)
    case _ => false
  }

  function PacketBytes(p: Packet<()>, revision: nat): Bytes
    requires WritablePacket(p)
  {
    match p
    case Progress(_, _, _, _, _) => [3] + ProgressBytes(p, revision)
    case ProfileInfo(_, _, _, _, _, _) => [6] + ProfileInfoBytes(p)
    case TableColumns(_, _) => [11] + TableColumnsBytes(p)
    case Exception(_, _, _, _) => [2] + ExceptionBytes(p)
  }

  /** What a client of some revision sees of a packet. */
  function Seen(p: Packet<()>, revision: nat): Packet<()> {
    if p.Progress? then
      p.(totalRows := if revision >= 51554 then p.totalRows else 0,
         writtenRows := if revision >= 54420 then p.writtenRows else 0,
         writtenBytes := if revision >= 54420 then p.writtenBytes else 0)
    else p
  }

  lemma PacketAt(p: Packet<()>, info: Info, d: Bytes, pos: nat)
    requires WritablePacket(p) && Holds(d, pos, PacketBytes(p, info.revision))
    ensures ReadPacket(d, pos, info) == Ok(Seen(p, info.revision), pos + |PacketBytes(p, info.revision)|)
  {
    hide ReadPacket, ReadProgress, ReadProfileInfo, ReadTableColumns, ReadException, Text;
    hide ProgressBytes, ProfileInfoBytes, TableColumnsBytes, ExceptionBytes;
    var bytes := PacketBytes(p, info.revision);
    HoldsSplit(d, pos, bytes[..1], bytes[1..]);
    assert bytes == bytes[..1] + bytes[1..] && d[pos] == d[pos..pos + 1][0];
    TagThen(bytes[0], info, d, pos);
    match p
    case Progress(_, _, _, _, _) => ProgressAt(p, info.revision, d, pos + 1);
    case ProfileInfo(_, _, _, _, _, _) => ProfileInfoAt(p, d, pos + 1);
    case TableColumns(_, _) => TableColumnsAt(p, d, pos + 1);
    case Exception(_, _, _, _) => ExceptionAt(p, d, pos + 1);
  }

  // ----- packets with a block -----

  function DataPacket(tag: Byte, table: Bytes, b: Block, revision: nat): Bytes
    requires WellFormedBlock(b)
  {
    [tag] + (Blob(table) + Write(b, revision))
  }

  /** A block that was written comes back as data, totals and extremes included, or as profile
      events, whatever stands around it, once the server has said hello; before that it is
      refused. */
  lemma DataPacketAt(tag: Byte, table: Bytes, b: Block, info: Info, d: Bytes, pos: nat)
    requires WellFormedBlock(b) && RecoverableColumns(b.columns) && |table| < U64_LIMIT
    requires tag == 1 || tag == 7 || tag == 8 || tag == 14
    requires Holds(d, pos, DataPacket(tag, table, b, info.revision))
    ensures ReadPacket(d, pos, info)
         == if info.timezone.None? then Err(UnexpectedPacket, pos + 1)
            else Ok(if tag == 14 then ProfileEvents(ReloadBlock(b)) else Data(ReloadBlock(b)),
                    pos + |DataPacket(tag, table, b, info.revision)|)
  {
    hide ReadPacket, RawLoad, Write, Holds, WellFormedColumns, RecoverableColumns, ReloadBlock, ReadBlob, Blob;
    var body := Write(b, info.revision);
    HoldsSplit(d, pos, [tag], Blob(table) + body);
    HoldsSplit(d, pos + 1, Blob(table), body);
    HeadByte(d, pos, tag);
    TagThen(tag, info, d, pos);
    BlobAt(d, pos + 1, table);
    BlockAt(b, info.revision, d, pos + 1 + |Blob(table)|);
  }

  lemma HeadByte(d: Bytes, pos: nat, b: Byte)
    requires Holds(d, pos, [b])
    ensures pos < |d| && d[pos] == b
  {
    assert d[pos] == d[pos..pos + 1][0];
  }

  // ----- tags without a packet -----

  predicate KnownTag(tag: nat) {
    tag <= 8 || tag == 11 || tag == 14
  }

  /** Whatever is wrong with a packet of a known tag is found behind the tag, or is that the
      packet is not expected yet. */
  lemma BodiesKnown(d: Bytes, pos: nat, info: Info)
    requires pos <= |d|
    ensures ReadHello(d, pos, info.zones).Err? ==> pos < ReadHello(d, pos, info.zones).pos
    ensures ReadProgress(d, pos, info.revision).Err? ==> pos < ReadProgress(d, pos, info.revision).pos
    ensures ReadProfileInfo(d, pos).Err? ==> pos < ReadProfileInfo(d, pos).pos
    ensures ReadTableColumns(d, pos).Err? ==> pos < ReadTableColumns(d, pos).pos
    ensures var r := ReadTableBlock(d, pos, info); r.Err? ==> pos < r.pos || r.error == UnexpectedPacket
  {
    hide RawLoad, ReadUvarint, ReadBytes, ValidUtf8, FromLE;
    hide ReadZone, ReadStringSince, ReadUvarintSince;
  }

  lemma ExceptionKnown(d: Bytes, pos: nat)
    requires pos <= |d|
    ensures ReadException(d, pos).Err? ==> pos < ReadException(d, pos).pos
  {
    hide ReadString, FromLE;
  }

  /** A tag is refused as unknown if and only if it is none of the eleven; a block info inside
      a packet has an error of the same kind, but further on. */
  lemma UnknownExactly(tag: nat, info: Info, d: Bytes, pos: nat)
    requires tag < U64_LIMIT && pos <= |d| && Holds(d, pos, Leb(tag))
    ensures ReadPacket(d, pos, info) == Err(UnknownPacket(tag), pos + |Leb(tag)|) <==> !KnownTag(tag)
  {
    hide ReadUvarint, ReadHello, ReadProgress, ReadProfileInfo, ReadTableColumns, ReadException, ReadTableBlock;
    UvarintRoundTrip(tag, d, pos);
    BodiesKnown(d, pos + |Leb(tag)|, info);
    ExceptionKnown(d, pos + |Leb(tag)|);
  }

  // ----- more bytes do not change an answer -----

  lemma ZoneMono(d: Bytes, d2: Bytes, pos: nat, revision: nat, zones: set<Bytes>)
    requires pos <= |d| && d <= d2 && !ReadZone(d, pos, revision, zones).WouldBlock?
    ensures ReadZone(d2, pos, revision, zones) == ReadZone(d, pos, revision, zones)
  {
    if revision >= MIN_REVISION_WITH_TIMEZONE { StringMono(d, d2, pos); }
  }

  lemma StringSinceMono(d: Bytes, d2: Bytes, pos: nat, revision: nat, since: nat)
    requires pos <= |d| && d <= d2 && !ReadStringSince(d, pos, revision, since).WouldBlock?
    ensures ReadStringSince(d2, pos, revision, since) == ReadStringSince(d, pos, revision, since)
  {
    if revision >= since { StringMono(d, d2, pos); }
  }

  lemma UvarintSinceMono(d: Bytes, d2: Bytes, pos: nat, revision: nat, since: nat)
    requires pos <= |d| && d <= d2 && !ReadUvarintSince(d, pos, revision, since).WouldBlock?
    ensures ReadUvarintSince(d2, pos, revision, since) == ReadUvarintSince(d, pos, revision, since)
  {
    if revision >= since { UvarintMono(d, d2, pos); }
  }

  lemma HelloMono(d: Bytes, d2: Bytes, pos: nat, zones: set<Bytes>)
    requires pos <= |d| && d <= d2 && !ReadHello(d, pos, zones).WouldBlock?
    ensures ReadHello(d2, pos, zones) == ReadHello(d, pos, zones)
  {
    hide ReadUvarint, ReadString, ReadZone, ReadStringSince, ReadUvarintSince;
    StringMono(d, d2, pos);
    var name := ReadString(d, pos);
    if name.Ok? {
      UvarintMono(d, d2, name.pos);
      var major := ReadUvarint(d, name.pos);
      if major.Ok? {
        UvarintMono(d, d2, major.pos);
        var minor := ReadUvarint(d, major.pos);
        if minor.Ok? {
          UvarintMono(d, d2, minor.pos);
          var rev := ReadUvarint(d, minor.pos);
          if rev.Ok? {
            ZoneMono(d, d2, rev.pos, rev.value, zones);
            var zone := ReadZone(d, rev.pos, rev.value, zones);
            if zone.Ok? {
              StringSinceMono(d, d2, zone.pos, rev.value, MIN_REVISION_WITH_DISPLAY_NAME);
              var display := ReadStringSince(d, zone.pos, rev.value, MIN_REVISION_WITH_DISPLAY_NAME);
              if display.Ok? { UvarintSinceMono(d, d2, display.pos, rev.value, MIN_REVISION_WITH_VERSION_PATCH); }
            }
          }
        }
      }
    }
  }

  lemma ProgressMono(d: Bytes, d2: Bytes, pos: nat, revision: nat)
    requires pos <= |d| && d <= d2 && !ReadProgress(d, pos, revision).WouldBlock?
    ensures ReadProgress(d2, pos, revision) == ReadProgress(d, pos, revision)
  {
    hide ReadUvarint, ReadUvarintSince;
    UvarintMono(d, d2, pos);
    var rows := ReadUvarint(d, pos);
    if rows.Ok? {
      UvarintMono(d, d2, rows.pos);
      var bytes := ReadUvarint(d, rows.pos);
      if bytes.Ok? {
        UvarintSinceMono(d, d2, bytes.pos, revision, MIN_REVISION_WITH_TOTAL_ROWS);
        var total := ReadUvarintSince(d, bytes.pos, revision, MIN_REVISION_WITH_TOTAL_ROWS);
        if total.Ok? {
          UvarintSinceMono(d, d2, total.pos, revision, MIN_REVISION_WITH_WRITE_INFO);
          var wrows := ReadUvarintSince(d, total.pos, revision, MIN_REVISION_WITH_WRITE_INFO);
          if wrows.Ok? { UvarintSinceMono(d, d2, wrows.pos, revision, MIN_REVISION_WITH_WRITE_INFO); }
        }
      }
    }
  }

  lemma ProfileInfoMono(d: Bytes, d2: Bytes, pos: nat)
    requires pos <= |d| && d <= d2 && !ReadProfileInfo(d, pos).WouldBlock?
    ensures ReadProfileInfo(d2, pos) == ReadProfileInfo(d, pos)
  {
    hide ReadUvarint, ReadWord;
    UvarintMono(d, d2, pos);
    var rows := ReadUvarint(d, pos);
    if rows.Ok? {
      UvarintMono(d, d2, rows.pos);
      var blocks := ReadUvarint(d, rows.pos);
      if blocks.Ok? {
        UvarintMono(d, d2, blocks.pos);
        var bytes := ReadUvarint(d, blocks.pos);
        if bytes.Ok? {
          WordMono(d, d2, bytes.pos, 1);
          var applied := ReadWord(d, bytes.pos, 1);
          if applied.Ok? {
            UvarintMono(d, d2, applied.pos);
            var before := ReadUvarint(d, applied.pos);
            if before.Ok? { WordMono(d, d2, before.pos, 1); }
          }
        }
      }
    }
  }

  lemma TwoStringsMono(d: Bytes, d2: Bytes, pos: nat)
    requires pos <= |d| && d <= d2 && !ReadTableColumns(d, pos).WouldBlock?
    ensures ReadTableColumns(d2, pos) == ReadTableColumns(d, pos)
  {
    hide ReadString;
    StringMono(d, d2, pos);
    var name := ReadString(d, pos);
    if name.Ok? { StringMono(d, d2, name.pos); }
  }

  lemma ExceptionMono(d: Bytes, d2: Bytes, pos: nat)
    requires pos <= |d| && d <= d2 && !ReadException(d, pos).WouldBlock?
    ensures ReadException(d2, pos) == ReadException(d, pos)
  {
    hide ReadString, ReadWord;
    WordMono(d, d2, pos, 4);
    var code := ReadWord(d, pos, 4);
    if code.Ok? {
      StringMono(d, d2, code.pos);
      var name := ReadString(d, code.pos);
      if name.Ok? {
        StringMono(d, d2, name.pos);
        var message := ReadString(d, name.pos);
        if message.Ok? { StringMono(d, d2, message.pos); }
      }
    }
  }

  lemma TableBlockMono(d: Bytes, d2: Bytes, pos: nat, info: Info)
    requires pos <= |d| && d <= d2 && !ReadTableBlock(d, pos, info).WouldBlock?
    ensures ReadTableBlock(d2, pos, info) == ReadTableBlock(d, pos, info)
  {
    hide SkipString, RawLoad;
    if info.timezone.Some? {
      SkipMono(d, d2, pos);
      var skipped := SkipString(d, pos);
      if skipped.Ok? { BlockMono(d, d2, skipped.pos, info.revision); }
    }
  }

  lemma BodyMono(d: Bytes, d2: Bytes, pos: nat, tag: nat, info: Info)
    requires pos <= |d| && d <= d2 && !ReadBody(d, pos, tag, info).WouldBlock?
    ensures ReadBody(d2, pos, tag, info) == ReadBody(d, pos, tag, info)
  {
    hide ReadHello, ReadProgress, ReadProfileInfo, ReadTableColumns, ReadException, ReadTableBlock;
    if tag == 0 { HelloMono(d, d2, pos, info.zones); }
    if tag == 3 { ProgressMono(d, d2, pos, info.revision); }
    if tag == 6 { ProfileInfoMono(d, d2, pos); }
    if tag == 11 { TwoStringsMono(d, d2, pos); }
    if tag == 2 { ExceptionMono(d, d2, pos); }
    if tag == 1 || tag == 7 || tag == 8 || tag == 14 { TableBlockMono(d, d2, pos, info); }
  }

  /** A packet that has been read, or an error that has been met, stays the same when more
      bytes follow: parsing again from the start of the buffer is safe. */
  lemma PacketMono(d: Bytes, d2: Bytes, pos: nat, info: Info)
    requires pos <= |d| && d <= d2 && !ReadPacket(d, pos, info).WouldBlock?
    ensures ReadPacket(d2, pos, info) == ReadPacket(d, pos, info)
  {
    hide ReadUvarint, ReadBody;
    UvarintMono(d, d2, pos);
    var tag := ReadUvarint(d, pos);
    if tag.Ok? { BodyMono(d, d2, tag.pos, tag.value, info); }
  }

  // ----- the parser over the shared reader -----

  method TakeStringSince(reader: Reader, revision: nat, since: nat) returns (r: Parsed<Bytes>)
    requires reader.Valid()
    modifies reader`pos
    ensures r == ReadStringSince(reader.data, old(reader.pos), revision, since) && reader.After(r)
  {
    if revision < since {
      return Ok([], reader.pos);
    }
    r := reader.TakeString();
  }

  method TakeUvarintSince(reader: Reader, revision: nat, since: nat) returns (r: Parsed<nat>)
    requires reader.Valid()
    modifies reader`pos
    ensures r == ReadUvarintSince(reader.data, old(reader.pos), revision, since) && reader.After(r)
  {
    if revision < since {
      return Ok(0, reader.pos);
    }
    r := reader.TakeUvarint();
  }

  method TakeHello(reader: Reader, zones: set<Bytes>) returns (r: Parsed<Packet<()>>)
    requires reader.Valid()
    modifies reader`pos
    ensures r == ReadHello(reader.data, old(reader.pos), zones) && reader.After(r)
  {
    hide ReadUvarint, ReadString, ReadStringSince, ReadUvarintSince;
    var name :- reader.TakeString();
    var major :- reader.TakeUvarint();
    var minor :- reader.TakeUvarint();
    var revision :- reader.TakeUvarint();
    var zone := UTC;
    if revision.0 >= MIN_REVISION_WITH_TIMEZONE {
      var z :- reader.TakeString();
      if z.0 !in zones {
        return Err(UnknownTimezone, reader.pos);
      }
      zone := z.0;
    }
    var display :- TakeStringSince(reader, revision.0, MIN_REVISION_WITH_DISPLAY_NAME);
    var patch :- TakeUvarintSince(reader, revision.0, MIN_REVISION_WITH_VERSION_PATCH);
    return Ok(Hello((), ServerInfo(name.0, major.0, minor.0, revision.0, zone, display.0, patch.0)), reader.pos);
  }

  method TakeProgress(reader: Reader, revision: nat) returns (r: Parsed<Packet<()>>)
    requires reader.Valid()
    modifies reader`pos
    ensures r == ReadProgress(reader.data, old(reader.pos), revision) && reader.After(r)
  {
    hide ReadUvarint, ReadUvarintSince;
    var rows :- reader.TakeUvarint();
    var bytes :- reader.TakeUvarint();
    var total :- TakeUvarintSince(reader, revision, MIN_REVISION_WITH_TOTAL_ROWS);
    var wrows :- TakeUvarintSince(reader, revision, MIN_REVISION_WITH_WRITE_INFO);
    var wbytes :- TakeUvarintSince(reader, revision, MIN_REVISION_WITH_WRITE_INFO);
    return Ok(Progress(rows.0, bytes.0, total.0, wrows.0, wbytes.0), reader.pos);
  }

  method TakeProfileInfo(reader: Reader) returns (r: Parsed<Packet<()>>)
    requires reader.Valid()
    modifies reader`pos
    ensures r == ReadProfileInfo(reader.data, old(reader.pos)) && reader.After(r)
  {
    hide ReadUvarint, ReadWord;
    var rows :- reader.TakeUvarint();
    var blocks :- reader.TakeUvarint();
    var bytes :- reader.TakeUvarint();
    var applied :- reader.TakeWord(1);
    var before :- reader.TakeUvarint();
    var calculated :- reader.TakeWord(1);
    return Ok(ProfileInfo(rows.0, blocks.0, bytes.0, applied.0 != 0, before.0, calculated.0 != 0), reader.pos);
  }

  method TakeTableColumns(reader: Reader) returns (r: Parsed<Packet<()>>)
    requires reader.Valid()
    modifies reader`pos
    ensures r == ReadTableColumns(reader.data, old(reader.pos)) && reader.After(r)
  {
    hide ReadString;
    var name :- reader.TakeString();
    var columns :- reader.TakeString();
    return Ok(TableColumns(name.0, columns.0), reader.pos);
  }

  method TakeException(reader: Reader) returns (r: Parsed<Packet<()>>)
    requires reader.Valid()
    modifies reader`pos
    ensures r == ReadException(reader.data, old(reader.pos)) && reader.After(r)
  {
    hide ReadString, ReadWord;
    var code :- reader.TakeWord(4);
    var name :- reader.TakeString();
    var message :- reader.TakeString();
    var trace :- reader.TakeString();
    return Ok(Exception(code.0, name.0, message.0, trace.0), reader.pos);
  }

  method TakeTableBlock(reader: Reader, info: Info) returns (r: Parsed<Block>)
    requires reader.Valid()
    modifies reader`pos
    ensures r == ReadTableBlock(reader.data, old(reader.pos), info) && reader.After(r)
  {
    hide SkipString, RawLoad;
    if info.timezone.None? {
      return Err(UnexpectedPacket, reader.pos);
    }
    var skipped :- reader.Skip();
    r := LoadBlock(info.revision, reader);
  }

  /** `parse_packet` and the packet bodies. */
  method ParsePacket(reader: Reader, info: Info) returns (r: Parsed<Packet<()>>)
    requires reader.Valid()
    modifies reader`pos
    ensures r == ReadPacket(reader.data, old(reader.pos), info) && reader.After(r)
  {
    hide ReadUvarint, ReadHello, ReadProgress, ReadProfileInfo, ReadTableColumns, ReadException, ReadTableBlock;
    var tag :- reader.TakeUvarint();
    var t := tag.0;
    if t == 0 {
      r := TakeHello(reader, info.zones);
    } else if t == 4 {
      r := Ok(Pong(()), reader.pos);
    } else if t == 3 {
      r := TakeProgress(reader, info.revision);
    } else if t == 6 {
      r := TakeProfileInfo(reader);
    } else if t == 11 {
      r := TakeTableColumns(reader);
    } else if t == 2 {
      r := TakeException(reader);
    } else if t == 1 || t == 7 || t == 8 {
      var b :- TakeTableBlock(reader, info);
      r := Ok(Data(b.0), reader.pos);
    } else if t == 14 {
      var b :- TakeTableBlock(reader, info);
      r := Ok(ProfileEvents(b.0), reader.pos);
    } else if t == 5 {
      r := Ok(Eof(()), reader.pos);
    } else {
      r := Err(UnknownPacket(t), reader.pos);
    }
  }
}
