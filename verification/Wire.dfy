/**
  The wire form of pgoutput protocol version 1 (section 55.9 of the PostgreSQL 16 documentation), in
  bytes: what a server may send, told without the decoder.
*/
module Wire {
  import opened Prelude
  import opened Protocol

  // ---- integers, big-endian -----------------------------------------------------------

  function U8(n: nat): Bytes { [n % 0x100] }

  function U16(n: nat): (bytes: Bytes)
    ensures |bytes| == 2
  {
    [n / 0x100 % 0x100, n % 0x100]
  }

  function U32(n: nat): (bytes: Bytes)
    ensures |bytes| == 4
  {
    [n / 0x100_0000 % 0x100, n / 0x1_0000 % 0x100, n / 0x100 % 0x100, n % 0x100]
  }

  function U64(n: nat): (bytes: Bytes)
    ensures |bytes| == 8
  {
    U32(n / 0x1_0000_0000) + U32(n % 0x1_0000_0000)
  }

  /** Two's complement. */
  function I32(n: int): (bytes: Bytes)
    ensures |bytes| == 4
  {
    U32(n % 0x1_0000_0000)
  }

  function I64(n: int): (bytes: Bytes)
    ensures |bytes| == 8
  {
    U64(n % 0x1_0000_0000_0000_0000)
  }

  // ---- text ------------------------------------------------------------------------------

  /** A Unicode scalar value. */
  predicate Scalar(c: int) { 0 <= c < 0xD800 || 0xE000 <= c < 0x11_0000 }

  /** Its UTF-8 form (RFC 3629, section 3). */
  function Utf8(c: int): Text
    requires Scalar(c)
  {
    if c < 0x80 then [c]
    else if c < 0x800 then [0xC0 + c / 0x40, 0x80 + c % 0x40]
    else if c < 0x1_0000 then [0xE0 + c / 0x1000, 0x80 + c / 0x40 % 0x40, 0x80 + c % 0x40]
    else [0xF0 + c / 0x4_0000, 0x80 + c / 0x1000 % 0x40, 0x80 + c / 0x40 % 0x40, 0x80 + c % 0x40]
  }

  predicate Scalars(cs: seq<int>) { forall i :: 0 <= i < |cs| ==> Scalar(cs[i]) }

  function Utf8All(cs: seq<int>): Text
    requires Scalars(cs)
  {
    if cs == [] then [] else Utf8(cs[0]) + Utf8All(cs[1..])
  }

  ghost predicate IsText(t: Text) { exists cs :: Scalars(cs) && Utf8All(cs) == t }

  // ---- message parts ---------------------------------------------------------------------

  function Each<T>(one: T -> Bytes, items: seq<T>): (parts: seq<Bytes>)
    ensures |parts| == |items| && forall i :: 0 <= i < |parts| ==> parts[i] == one(items[i])
  {
    seq(|items|, i requires 0 <= i < |items| => one(items[i]))
  }

  function EncodeMany<T>(one: T -> Bytes, items: seq<T>): Bytes { Flatten(Each(one, items)) }

  function EncodeCString(t: Text): Bytes { t + [0] }

  function EncodeCell(cell: Cell): Bytes {
    match cell
    case NullCell => ['n' as int]
    case UnchangedCell => ['u' as int]
    case TextCell(text) => ['t' as int] + (I32(|text|) + text)
  }

  function EncodeTuple(tuple: Tuple): Bytes { U16(|tuple|) + EncodeMany(EncodeCell, tuple) }

  /** Only the lowest flag has a meaning. */
  function EncodeColumn(flags: byte, column: Column): Bytes {
    [flags] + (EncodeCString(column.name) + (U32(column.typeOid) + I32(column.typeMod)))
  }

  function EachColumn(flags: seq<byte>, columns: seq<Column>): (parts: seq<Bytes>)
    requires |flags| == |columns|
    ensures |parts| == |columns| && forall i :: 0 <= i < |parts| ==> parts[i] == EncodeColumn(flags[i], columns[i])
  {
    seq(|columns|, i requires 0 <= i < |columns| => EncodeColumn(flags[i], columns[i]))
  }

  function EncodeColumns(flags: seq<byte>, columns: seq<Column>): Bytes
    requires |flags| == |columns|
  {
    Flatten(EachColumn(flags, columns))
  }

  function EncodeOptional(before: Option<Tuple>, key: Option<Tuple>, rest: Bytes): Bytes {
    if key.Some? then ['K' as int] + (EncodeTuple(key.value) + rest)
    else if before.Some? then ['O' as int] + (EncodeTuple(before.value) + rest)
    else rest
  }

  // ---- messages ----------------------------------------------------------------------------

  function Kind(m: Message): byte {
    match m
    case Begin(_, _, _) => 'B' as int
    case Commit(_, _, _, _) => 'C' as int
    case RelationMsg(_) => 'R' as int
    case InsertMsg(_, _) => 'I' as int
    case UpdateMsg(_, _, _, _) => 'U' as int
    case DeleteMsg(_, _, _) => 'D' as int
    case TruncateMsg(_, _) => 'T' as int
    case Origin(_, _) => 'O' as int
    case TypeInfo(_, _, _) => 'Y' as int
  }

  /** A flags byte for each column of a relation; the lowest bit says that it is part of the key. */
  predicate FlagsOf(m: Message, flags: seq<byte>) {
    m.RelationMsg? ==>
      && |flags| == |m.rel.columns|
      && forall i :: 0 <= i < |flags| ==> (m.rel.columns[i].isKey <==> flags[i] % 2 == 1)
  }

  function EncodeRelation(rel: Relation, flags: seq<byte>): Bytes
    requires |flags| == |rel.columns|
  {
    U32(rel.relId) + (EncodeCString(rel.schema) + (EncodeCString(rel.name) + RelationTail(rel, flags)))
  }

  function RelationTail(rel: Relation, flags: seq<byte>): Bytes
    requires |flags| == |rel.columns|
  {
    [rel.replicaIdentity] + (U16(|rel.columns|) + EncodeColumns(flags, rel.columns))
  }

  function EncodeBody(m: Message, flags: seq<byte>): Bytes
    requires FlagsOf(m, flags)
  {
    match m
    case Begin(finalLsn, commitTs, xid) => U64(finalLsn) + (I64(commitTs) + U32(xid))
    case Commit(bits, commitLsn, endLsn, commitTs) => U8(bits) + (U64(commitLsn) + (U64(endLsn) + I64(commitTs)))
    case RelationMsg(rel) => EncodeRelation(rel, flags)
    case InsertMsg(relId, tuple) => U32(relId) + (['N' as int] + EncodeTuple(tuple))
    case UpdateMsg(relId, before, key, tuple) =>
      U32(relId) + EncodeOptional(before, key, ['N' as int] + EncodeTuple(tuple))
    case DeleteMsg(relId, before, key) => U32(relId) + EncodeOptional(before, key, [])
    case TruncateMsg(options, relIds) => U32(|relIds|) + (U8(options) + EncodeMany(U32, relIds))
    case Origin(commitLsn, name) => U64(commitLsn) + EncodeCString(name)
    case TypeInfo(typeOid, schema, name) => U32(typeOid) + (EncodeCString(schema) + EncodeCString(name))
  }

  function Encode(m: Message, flags: seq<byte>): Bytes
    requires FlagsOf(m, flags)
  {
    [Kind(m)] + EncodeBody(m, flags)
  }

  // ---- values that can be sent ------------------------------------------------------------------

  predicate Fits16(n: nat) { n < 0x1_0000 }

  predicate Fits32(n: nat) { n < 0x1_0000_0000 }

  predicate Fits64(n: nat) { n < 0x1_0000_0000_0000_0000 }

  predicate FitsInt32(n: int) { -0x8000_0000 <= n < 0x8000_0000 }

  ghost predicate WfName(t: Text) { IsText(t) && 0 !in t }

  ghost predicate WfCell(cell: Cell) {
    cell.TextCell? ==> IsText(cell.text) && FitsInt32(|cell.text|)
  }

  ghost predicate WfTuple(tuple: Tuple) {
    Fits16(|tuple|) && forall i :: 0 <= i < |tuple| ==> WfCell(tuple[i])
  }

  ghost predicate WfOptional(tuple: Option<Tuple>) { tuple.Some? ==> WfTuple(tuple.value) }

  ghost predicate WfColumn(column: Column) {
    WfName(column.name) && Fits32(column.typeOid) && FitsInt32(column.typeMod)
  }

  /** Default, nothing, full or index. */
  predicate WfIdentity(b: byte) { b == 'd' as int || b == 'n' as int || b == 'f' as int || b == 'i' as int }

  ghost predicate WfRelation(rel: Relation) {
    && Fits32(rel.relId) && WfName(rel.schema) && WfName(rel.name)
    && WfIdentity(rel.replicaIdentity)
    && Fits16(|rel.columns|)
    && forall i :: 0 <= i < |rel.columns| ==> WfColumn(rel.columns[i])
  }

  /** Days of the Gregorian calendar from year 1 to the beginning of a year. */
  function DaysBefore(year: nat): int
    requires year >= 1
  {
    365 * (year - 1) + (year - 1) / 4 - (year - 1) / 100 + (year - 1) / 400
  }

  const DAY: int := 24 * 60 * 60 * 1_000_000

  /** Microseconds since 2000 of a time in the years 1 to 9999. */
  predicate WfTimestamp(micros: int) {
    (DaysBefore(1) - DaysBefore(2000)) * DAY <= micros < (DaysBefore(10_000) - DaysBefore(2000)) * DAY
  }

  ghost predicate WfMessage(m: Message) {
    match m
    case Begin(finalLsn, commitTs, xid) => Fits64(finalLsn) && WfTimestamp(commitTs) && Fits32(xid)
    case Commit(bits, commitLsn, endLsn, commitTs) =>
      bits < 0x100 && Fits64(commitLsn) && Fits64(endLsn) && WfTimestamp(commitTs)
    case RelationMsg(rel) => WfRelation(rel)
    case InsertMsg(relId, tuple) => Fits32(relId) && WfTuple(tuple)
    case UpdateMsg(relId, before, key, tuple) =>
      Fits32(relId) && WfOptional(before) && WfOptional(key) && WfTuple(tuple) && (before.None? || key.None?)
    case DeleteMsg(relId, before, key) =>
      Fits32(relId) && WfOptional(before) && WfOptional(key) && (before.None? <==> key.Some?)
    case TruncateMsg(options, relIds) =>
      options < 0x100 && Fits32(|relIds|) && forall i :: 0 <= i < |relIds| ==> Fits32(relIds[i])
    case Origin(commitLsn, name) => Fits64(commitLsn) && WfName(name)
    case TypeInfo(typeOid, schema, name) => Fits32(typeOid) && WfName(schema) && WfName(name)
  }
}
