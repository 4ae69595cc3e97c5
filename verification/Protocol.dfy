/**
  pgoutput protocol version 1: messages, and the decoder as functions from a buffer and a cursor.
*/
module Protocol {
  import opened Prelude

  type Bytes = seq<byte>

  datatype Cell = NullCell | UnchangedCell | TextCell(text: Text)
  type Tuple = seq<Cell>

  datatype Column = Column(name: Text, typeOid: nat, typeMod: int, isKey: bool)

  datatype Relation = Relation(relId: nat, schema: Text, name: Text, replicaIdentity: byte, columns: seq<Column>)

  /** Timestamps are microseconds since 2000-01-01 00:00:00 UTC. */
  datatype Message =
    | Begin(finalLsn: nat, commitTs: int, xid: nat)
    | Commit(flags: nat, commitLsn: nat, endLsn: nat, commitTs: int)
    | RelationMsg(rel: Relation)
    | InsertMsg(relId: nat, tuple: Tuple)
    | UpdateMsg(relId: nat, before: Option<Tuple>, key: Option<Tuple>, tuple: Tuple)
    | DeleteMsg(relId: nat, before: Option<Tuple>, key: Option<Tuple>)
    | TruncateMsg(options: nat, relIds: seq<nat>)
    | Origin(commitLsn: nat, name: Text)
    | TypeInfo(typeOid: nat, schema: Text, name: Text)

  // ---- integers ---------------------------------------------------------------

  function Pow256(n: nat): (p: nat)
    ensures p > 0
  {
    if n == 0 then 1 else 256 * Pow256(n - 1)
  }

  /** Big-endian unsigned. */
  function Unsigned(bytes: Bytes): (n: nat)
    ensures n < Pow256(|bytes|)
  {
    if bytes == [] then 0 else Unsigned(bytes[..|bytes| - 1]) * 256 + bytes[|bytes| - 1]
  }

  function Signed(bytes: Bytes): int {
    var n := Unsigned(bytes);
    if 2 * n < Pow256(|bytes|) then n else n - Pow256(|bytes|)
  }

  // ---- text ----------------------------------------------------------------------

  predicate Between(b: byte, low: int, high: int) { low <= b <= high }

  predicate Tail(t: Text, i: nat) { i < |t| && Between(t[i], 0x80, 0xBF) }

  /** Length of the well-formed UTF-8 sequence at the head of t; 0 when there is none. */
  function SequenceLength(t: Text): nat
    requires t != []
  {
    var a := t[0];
    if a < 0x80 then 1
    else if Between(a, 0xC2, 0xDF) then (if Tail(t, 1) then 2 else 0)
    else if Between(a, 0xE0, 0xEF) then
      (if Tail(t, 1) && Tail(t, 2) && (a == 0xE0 ==> t[1] >= 0xA0) && (a == 0xED ==> t[1] <= 0x9F) then 3 else 0)
    else if Between(a, 0xF0, 0xF4) then
      (if Tail(t, 1) && Tail(t, 2) && Tail(t, 3) && (a == 0xF0 ==> t[1] >= 0x90) && (a == 0xF4 ==> t[1] <= 0x8F)
       then 4 else 0)
    else 0
  }

  predicate ValidUtf8(t: Text) {
    t == [] ||
    (var n := SequenceLength(t);
     0 < n <= |t| && ValidUtf8(t[n..]))
  }

  // ---- the cursor ------------------------------------------------------------------

  /** The result of one read: the value and the cursor after it. */
  type Read<T> = Result<(T, int)>

  function Clamp(i: int, n: nat): (k: nat)
    ensures k <= n
  {
    if i < 0 then (if i + n < 0 then 0 else i + n) else if i > n then n else i
  }

  /** buf[a:b] as the language defines it: a negative index counts from the end. */
  function Slice(buf: Bytes, a: int, b: int): Bytes {
    var low, high := Clamp(a, |buf|), Clamp(b, |buf|);
    if low <= high then buf[low..high] else []
  }

  /** take checks the upper bound alone, so a negative n moves the cursor back. */
  function Take(buf: Bytes, pos: int, n: int): Read<Bytes> {
    if pos + n > |buf| then Err(ProtocolError) else Ok((Slice(buf, pos, pos + n), pos + n))
  }

  function ReadByte(buf: Bytes, pos: int): Read<byte> {
    var (chunk, next) :- Take(buf, pos, 1);
    if chunk == [] then Err(RuntimeError) else Ok((chunk[0], next))
  }

  /** A chunk that is not of the width asked for is refused by struct.unpack. */
  function ReadUnsigned(buf: Bytes, pos: int, width: nat): Read<nat> {
    var (chunk, next) :- Take(buf, pos, width);
    if |chunk| != width then Err(RuntimeError) else Ok((Unsigned(chunk), next))
  }

  function ReadSigned(buf: Bytes, pos: int, width: nat): Read<int> {
    var (chunk, next) :- Take(buf, pos, width);
    if |chunk| != width then Err(RuntimeError) else Ok((Signed(chunk), next))
  }

  /** Microseconds from 2000-01-01 to 0001-01-01 and to the end of year 9999. */
  const MIN_MICROS: int := -730_119 * 86_400_000_000
  const MAX_MICROS: int := 2_921_940 * 86_400_000_000 - 1

  function ReadTimestamp(buf: Bytes, pos: int): Read<int> {
    var (micros, next) :- ReadSigned(buf, pos, 8);
    if MIN_MICROS <= micros <= MAX_MICROS then Ok((micros, next)) else Err(OverflowError)
  }

  /** buf.find of the NUL byte. */
  function FindZero(buf: Bytes, from: nat): Option<nat>
    requires from <= |buf|
    decreases |buf| - from
  {
    if from == |buf| then None else if buf[from] == 0 then Some(from) else FindZero(buf, from + 1)
  }

  lemma {:induction false} FindZeroFindsFirst(buf: Bytes, from: nat, i: nat)
    requires from <= |buf| && from <= i <= |buf| && (forall k :: from <= k < i ==> buf[k] != 0)
    requires i < |buf| ==> buf[i] == 0
    ensures FindZero(buf, from) == if i < |buf| then Some(i) else None
    decreases |buf| - from
  {
    if from < i {
      FindZeroFindsFirst(buf, from + 1, i);
    }
  }

  function ReadCString(buf: Bytes, pos: int): Read<Text> {
    match FindZero(buf, Clamp(pos, |buf|))
    case None => Err(ProtocolError)
    case Some(end) =>
      var text := Slice(buf, pos, end);
      if ValidUtf8(text) then Ok((text, end + 1)) else Err(UnicodeError)
  }

  /** `count` items in a row. */
  function ReadMany<T>(one: (Bytes, int) -> Read<T>, buf: Bytes, pos: int, count: nat): Read<seq<T>>
    decreases count
  {
    if count == 0 then Ok(([], pos))
    else
      var (item, next) :- one(buf, pos);
      var (rest, end) :- ReadMany(one, buf, next, count - 1);
      Ok(([item] + rest, end))
  }

  // ---- message parts -------------------------------------------------------------------

  const N: byte := 'n' as int
  const U: byte := 'u' as int
  const T: byte := 't' as int
  const TAG_NEW: byte := 'N' as int
  const TAG_OLD: byte := 'O' as int
  const TAG_KEY: byte := 'K' as int

  function ReadCell(buf: Bytes, pos: int): Read<Cell> {
    var (category, next) :- ReadByte(buf, pos);
    if category == N then Ok((NullCell, next))
    else if category == U then Ok((UnchangedCell, next))
    else if category == T then
      var (length, start) :- ReadSigned(buf, next, 4);
      var (chunk, end) :- Take(buf, start, length);
      if ValidUtf8(chunk) then Ok((TextCell(chunk), end)) else Err(UnicodeError)
    else Err(ProtocolError)
  }

  function ReadTuple(buf: Bytes, pos: int): Read<Tuple> {
    var (count, next) :- ReadUnsigned(buf, pos, 2);
    ReadMany(ReadCell, buf, next, count)
  }

  function ReadColumn(buf: Bytes, pos: int): Read<Column> {
    var (flags, p) :- ReadByte(buf, pos);
    var (name, q) :- ReadCString(buf, p);
    ReadColumnType(buf, q, flags, name)
  }

  /** The part of a column after its name. */
  function ReadColumnType(buf: Bytes, pos: int, flags: byte, name: Text): Read<Column> {
    var (typeOid, r) :- ReadUnsigned(buf, pos, 4);
    var (typeMod, s) :- ReadSigned(buf, r, 4);
    Ok((Column(name, typeOid, typeMod, flags % 2 == 1), s))
  }

  function ReadRelId(buf: Bytes, pos: int): Read<nat> { ReadUnsigned(buf, pos, 4) }

  predicate IsReplicaIdentity(b: byte) {
    b == 'd' as int || b == 'n' as int || b == 'f' as int || b == 'i' as int
  }

  // ---- the decoders ----------------------------------------------------------------------

  function DecodeBegin(buf: Bytes): Read<Message> {
    var (finalLsn, p) :- ReadUnsigned(buf, 1, 8);
    var (commitTs, q) :- ReadTimestamp(buf, p);
    var (xid, r) :- ReadUnsigned(buf, q, 4);
    Ok((Begin(finalLsn, commitTs, xid), r))
  }

  function DecodeCommit(buf: Bytes): Read<Message> {
    var (flags, p) :- ReadByte(buf, 1);
    var (commitLsn, q) :- ReadUnsigned(buf, p, 8);
    var (endLsn, r) :- ReadUnsigned(buf, q, 8);
    var (commitTs, s) :- ReadTimestamp(buf, r);
    Ok((Commit(flags, commitLsn, endLsn, commitTs), s))
  }

  function DecodeOrigin(buf: Bytes): Read<Message> {
    var (commitLsn, p) :- ReadUnsigned(buf, 1, 8);
    var (name, q) :- ReadCString(buf, p);
    Ok((Origin(commitLsn, name), q))
  }

  function DecodeRelation(buf: Bytes): Read<Message> {
    var (relId, p) :- ReadUnsigned(buf, 1, 4);
    var (schema, q) :- ReadCString(buf, p);
    var (name, r) :- ReadCString(buf, q);
    DecodeColumns(buf, r, relId, schema, name)
  }

  /** The part of a Relation from its replica identity on. */
  function DecodeColumns(buf: Bytes, pos: int, relId: nat, schema: Text, name: Text): Read<Message> {
    var (identity, s) :- ReadByte(buf, pos);
    if !IsReplicaIdentity(identity) then Err(ProtocolError)
    else
      var (count, t) :- ReadUnsigned(buf, s, 2);
      var (columns, end) :- ReadMany(ReadColumn, buf, t, count);
      Ok((RelationMsg(Relation(relId, schema, name, identity, columns)), end))
  }

  function DecodeType(buf: Bytes): Read<Message> {
    var (typeOid, p) :- ReadUnsigned(buf, 1, 4);
    var (schema, q) :- ReadCString(buf, p);
    var (name, r) :- ReadCString(buf, q);
    Ok((TypeInfo(typeOid, schema, name), r))
  }

  function DecodeInsert(buf: Bytes): Read<Message> {
    var (relId, p) :- ReadUnsigned(buf, 1, 4);
    var (tag, q) :- ReadByte(buf, p);
    if tag != TAG_NEW then Err(ProtocolError)
    else
      var (tuple, r) :- ReadTuple(buf, q);
      Ok((InsertMsg(relId, tuple), r))
  }

  /** The part of an Update after the optional 'K' or 'O' tuple. */
  function DecodeNew(buf: Bytes, pos: int, relId: nat, before: Option<Tuple>, key: Option<Tuple>,
                     tag: byte): Read<Message> {
    if tag != TAG_NEW then Err(ProtocolError)
    else
      var (tuple, end) :- ReadTuple(buf, pos);
      Ok((UpdateMsg(relId, before, key, tuple), end))
  }

  /** The part of an Update from its 'K' or 'O' tuple on. */
  function DecodeOldNew(buf: Bytes, pos: int, relId: nat, tag: byte): Read<Message> {
    var (tuple, r) :- ReadTuple(buf, pos);
    var (next, s) :- ReadByte(buf, r);
    if tag == TAG_KEY then DecodeNew(buf, s, relId, None, Some(tuple), next)
    else DecodeNew(buf, s, relId, Some(tuple), None, next)
  }

  function DecodeUpdate(buf: Bytes): Read<Message> {
    var (relId, p) :- ReadUnsigned(buf, 1, 4);
    var (tag, q) :- ReadByte(buf, p);
    if tag == TAG_KEY || tag == TAG_OLD then DecodeOldNew(buf, q, relId, tag)
    else DecodeNew(buf, q, relId, None, None, tag)
  }

  function DecodeDelete(buf: Bytes): Read<Message> {
    var (relId, p) :- ReadUnsigned(buf, 1, 4);
    var (tag, q) :- ReadByte(buf, p);
    if tag == TAG_KEY || tag == TAG_OLD then
      var (tuple, r) :- ReadTuple(buf, q);
      if tag == TAG_KEY then Ok((DeleteMsg(relId, None, Some(tuple)), r))
      else Ok((DeleteMsg(relId, Some(tuple), None), r))
    else Err(ProtocolError)
  }

  function DecodeTruncate(buf: Bytes): Read<Message> {
    var (count, p) :- ReadUnsigned(buf, 1, 4);
    var (options, q) :- ReadByte(buf, p);
    var (relIds, r) :- ReadMany(ReadRelId, buf, q, count);
    Ok((TruncateMsg(options, relIds), r))
  }

  function DecodeAt(buf: Bytes): Read<Message>
    requires buf != []
  {
    var kind := buf[0];
    if kind == 'B' as int then DecodeBegin(buf)
    else if kind == 'C' as int then DecodeCommit(buf)
    else if kind == 'O' as int then DecodeOrigin(buf)
    else if kind == 'R' as int then DecodeRelation(buf)
    else if kind == 'Y' as int then DecodeType(buf)
    else if kind == 'I' as int then DecodeInsert(buf)
    else if kind == 'U' as int then DecodeUpdate(buf)
    else if kind == 'D' as int then DecodeDelete(buf)
    else if kind == 'T' as int then DecodeTruncate(buf)
    else Err(ProtocolError)
  }

  /** decode_message: bytes after the message are not looked at. */
  function Decode(buf: Bytes): Result<Message> {
    if buf == [] then Err(ProtocolError)
    else
      var (message, _) :- DecodeAt(buf);
      Ok(message)
  }
}
